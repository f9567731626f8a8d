/** Removing an opaque dark backplate: a breadth-first fill from the border over eight neighbours. */
module FloodFill {
  import opened Common

  const DARK_LIMIT := 42
  const FEATHER_LIMIT := 78
  const ALPHA_FLOOR := 224
  const SPREAD_LIMIT := 28
  const PIXEL_LIMIT := 4_000_000

  /** Pixels of four bytes each (blue, green, red, alpha), row after row. */
  datatype Image = Image(bytes: seq<Byte>, width: nat, height: nat) {
    ghost predicate Valid() {
      width > 0 && height > 0 && |bytes| == 4 * Size()
    }

    function Size(): nat {
      width * height
    }
  }

  function Brightness(blue: Byte, green: Byte, red: Byte): int {
    Max(red, Max(green, blue))
  }

  predicate IsBlackBackground(blue: Byte, green: Byte, red: Byte, alpha: Byte) {
    && alpha >= ALPHA_FLOOR
    && Brightness(blue, green, red) <= FEATHER_LIMIT
    && Brightness(blue, green, red) - Min(red, Min(green, blue)) <= SPREAD_LIMIT
  }

  /** Brightness is the largest of the three colours. */
  lemma BrightnessIsLargest(blue: Byte, green: Byte, red: Byte)
    ensures
      var most := Brightness(blue, green, red);
      && blue <= most && green <= most && red <= most && (most == blue || most == green || most == red)
  {
  }

  /** A pixel is background exactly when it is nearly opaque, no colour of it is bright, and all three are close. */
  lemma BlackBackgroundMeans(blue: Byte, green: Byte, red: Byte, alpha: Byte)
    ensures IsBlackBackground(blue, green, red, alpha) <==>
              && 224 <= alpha && blue <= 78 && green <= 78 && red <= 78
              && -28 <= blue - green <= 28 && -28 <= green - red <= 28 && -28 <= red - blue <= 28
  {
  }

  predicate Dark(image: Image, i: nat)
    requires image.Valid() && i < image.Size()
  {
    IsBlackBackground(image.bytes[4 * i], image.bytes[4 * i + 1], image.bytes[4 * i + 2], image.bytes[4 * i + 3])
  }

  // ---- Coordinates.

  function Row(i: nat, width: nat): nat
    requires width > 0
  {
    i / width
  }

  function Col(i: nat, width: nat): nat
    requires width > 0
  {
    i % width
  }

  function Index(y: nat, x: nat, width: nat): nat {
    y * width + x
  }

  lemma QuotientIsUnique(q: nat, r: nat, q': nat, r': nat, width: nat)
    requires r < width && r' < width && q * width + r == q' * width + r'
    ensures q == q' && r == r'
  {
    assert q < q' ==> (q + 1) * width <= q' * width;
    assert q' < q ==> (q' + 1) * width <= q * width;
  }

  lemma CoordinatesOfIndex(y: nat, x: nat, width: nat)
    requires x < width
    ensures Row(Index(y, x, width), width) == y && Col(Index(y, x, width), width) == x
  {
    var i := Index(y, x, width);
    QuotientIsUnique(y, x, i / width, i % width, width);
  }

  lemma IndexOfCoordinates(i: nat, width: nat)
    requires width > 0
    ensures Col(i, width) < width && Index(Row(i, width), Col(i, width), width) == i
  {
  }

  lemma IndexInGrid(y: nat, x: nat, width: nat, height: nat)
    requires x < width && y < height
    ensures Index(y, x, width) < width * height
  {
    assert (y + 1) * width <= height * width;
  }

  lemma RowInGrid(i: nat, width: nat, height: nat)
    requires width > 0 && i < width * height
    ensures Row(i, width) < height
  {
    var y := Row(i, width);
    assert y * width <= i;
    assert height <= y ==> height * width <= y * width;
  }

  // ---- What the fill is meant to find.

  predicate OnBorder(image: Image, i: nat)
    requires image.width > 0
  {
    || Col(i, image.width) == 0 || Col(i, image.width) == image.width - 1
    || Row(i, image.width) == 0 || Row(i, image.width) == image.height - 1
  }

  predicate Adjacent(i: nat, j: nat, width: nat)
    requires width > 0
  {
    && i != j
    && -1 <= Row(j, width) - Row(i, width) <= 1
    && -1 <= Col(j, width) - Col(i, width) <= 1
  }

  ghost predicate DarkPath(image: Image, path: seq<nat>)
    requires image.Valid()
  {
    && |path| > 0
    && (forall k | 0 <= k < |path| :: path[k] < image.Size() && Dark(image, path[k]))
    && forall k | 0 < k < |path| :: Adjacent(path[k - 1], path[k], image.width)
  }

  /** A path of dark pixels leads here from one of the seeds. */
  ghost predicate Reached(image: Image, seeds: set<nat>, i: nat)
    requires image.Valid()
  {
    exists path :: DarkPath(image, path) && path[0] in seeds && path[|path| - 1] == i
  }

  ghost function Border(image: Image): set<nat>
    requires image.Valid()
  {
    set i: nat | i < image.Size() && OnBorder(image, i)
  }

  /** The pixels from which the fill starts: on an image of one row, its last pixel is left out. */
  ghost function Seeds(image: Image): set<nat>
    requires image.Valid()
  {
    set i: nat | i < image.Size() && OnBorder(image, i) &&
        !(image.height == 1 && image.width > 1 && i == image.width - 1)
  }

  ghost function Filled(image: Image, seeds: set<nat>): set<nat>
    requires image.Valid()
  {
    set i: nat | i < image.Size() && Reached(image, seeds, i)
  }

  /** Every dark neighbour of a pixel is marked. */
  ghost predicate Closed(image: Image, marked: set<nat>, i: nat)
    requires image.Valid()
  {
    forall j: nat | j < image.Size() && Adjacent(i, j, image.width) && Dark(image, j) :: j in marked
  }

  lemma ReachedFromSeed(image: Image, seeds: set<nat>, i: nat)
    requires image.Valid() && i < image.Size() && i in seeds && Dark(image, i)
    ensures Reached(image, seeds, i)
  {
    assert DarkPath(image, [i]);
  }

  lemma ReachedNext(image: Image, seeds: set<nat>, i: nat, j: nat)
    requires image.Valid() && Reached(image, seeds, i) && j < image.Size() && Dark(image, j)
    requires Adjacent(i, j, image.width)
    ensures Reached(image, seeds, j)
  {
    var path :| DarkPath(image, path) && path[0] in seeds && path[|path| - 1] == i;
    assert DarkPath(image, path + [j]);
    assert (path + [j])[0] in seeds && (path + [j])[|path|] == j;
  }

  lemma {:induction false} PathStaysMarked(image: Image, marked: set<nat>, path: seq<nat>, k: nat)
    requires image.Valid() && DarkPath(image, path) && k < |path| && path[0] in marked
    requires forall i | i in marked :: i < image.Size() && Closed(image, marked, i)
    ensures path[k] in marked
  {
    if k > 0 {
      PathStaysMarked(image, marked, path, k - 1);
      assert Closed(image, marked, path[k - 1]);
      assert Adjacent(path[k - 1], path[k], image.width);
    }
  }

  /** A closed set of reached pixels holding the dark seeds is the whole fill. */
  lemma ClosedIsFilled(image: Image, seeds: set<nat>, marked: set<nat>)
    requires image.Valid()
    requires forall i | i in marked :: i < image.Size() && Reached(image, seeds, i) && Closed(image, marked, i)
    requires forall i | i in seeds && i < image.Size() && Dark(image, i) :: i in marked
    ensures marked == Filled(image, seeds)
  {
    forall i | i in Filled(image, seeds) ensures i in marked {
      var path :| DarkPath(image, path) && path[0] in seeds && path[|path| - 1] == i;
      PathStaysMarked(image, marked, path, |path| - 1);
    }
  }

  lemma FillGrowsWithSeeds(image: Image, fewer: set<nat>, more: set<nat>)
    requires image.Valid() && fewer <= more
    ensures Filled(image, fewer) <= Filled(image, more)
  {
  }

  /**
   * The seeds used find exactly the dark pixels connected to the border, except on an image of one row whose
   * last pixel is dark beside one that is not.
   */
  lemma SeedsSuffice(image: Image)
    requires image.Valid()
    ensures Filled(image, Seeds(image)) == Filled(image, Border(image)) <==>
            !(image.height == 1 && image.width > 1 && Dark(image, image.width - 1) && !Dark(image, image.width - 2))
  {
    FillGrowsWithSeeds(image, Seeds(image), Border(image));
    if image.height == 1 && image.width > 1 {
      var last := image.width - 1;
      OneRow(image);
      if Dark(image, last) {
        ReachedFromSeed(image, Border(image), last);
        assert last in Filled(image, Border(image));
        if Dark(image, last - 1) {
          ReachedFromSeed(image, Seeds(image), last - 1);
          ReachedNext(image, Seeds(image), last - 1, last);
          ReachedFromEither(image, last);
        } else {
          NotReached(image, last);
        }
      } else {
        ReachedFromEither(image, last);
      }
    } else {
      assert Seeds(image) == Border(image);
    }
  }

  /** A light pixel beside a dark one, on one row: the dark one is on the border, and the seeds do not find it. */
  lemma MissedPixel()
    ensures
      var image := Image([200, 200, 200, 255, 0, 0, 0, 255], 2, 1);
      image.Valid() && 1 in Filled(image, Border(image)) && 1 !in Filled(image, Seeds(image))
  {
    var image := Image([200, 200, 200, 255, 0, 0, 0, 255], 2, 1);
    SeedsSuffice(image);
    OneRow(image);
    assert Dark(image, 1) && !Dark(image, 0);
    ReachedFromBorder(image, 1);
    NotReached(image, 1);
  }

  lemma ReachedFromBorder(image: Image, i: nat)
    requires image.Valid() && i < image.Size() && OnBorder(image, i) && Dark(image, i)
    ensures i in Filled(image, Border(image))
  {
    ReachedFromSeed(image, Border(image), i);
  }

  lemma OneRow(image: Image)
    requires image.Valid() && image.height == 1
    ensures image.Size() == image.width
    ensures forall i: nat | i < image.width ::
              Row(i, image.width) == 0 && Col(i, image.width) == i && OnBorder(image, i)
  {
    forall i: nat | i < image.width ensures Row(i, image.width) == 0 && Col(i, image.width) == i {
      CoordinatesOfIndex(0, i, image.width);
    }
  }

  lemma ReachedFromEither(image: Image, last: nat)
    requires image.Valid() && image.height == 1 && image.width > 1 && last == image.width - 1
    requires last < image.Size() && (Dark(image, last) ==> Reached(image, Seeds(image), last))
    ensures Filled(image, Border(image)) <= Filled(image, Seeds(image))
  {
    OneRow(image);
    forall i | i in Filled(image, Border(image)) ensures i in Filled(image, Seeds(image)) {
      var path :| DarkPath(image, path) && path[0] in Border(image) && path[|path| - 1] == i;
      assert Dark(image, path[|path| - 1]);
      if i != last {
        ReachedFromSeed(image, Seeds(image), i);
      }
    }
  }

  lemma NotReached(image: Image, last: nat)
    requires image.Valid() && image.height == 1 && image.width > 1 && last == image.width - 1
    requires !Dark(image, last - 1)
    ensures !Reached(image, Seeds(image), last)
  {
    OneRow(image);
    forall path | DarkPath(image, path) && path[|path| - 1] == last && path[0] in Seeds(image) ensures false {
      assert |path| > 1;
      assert path[|path| - 2] == last - 1 by { assert Adjacent(path[|path| - 2], last, image.width); }
    }
  }

  // ---- The fill itself.

  predicate IsBlackBackgroundPixel(pixels: array<Byte>, offset: nat)
    requires offset + 3 < pixels.Length
    reads pixels
  {
    IsBlackBackground(pixels[offset], pixels[offset + 1], pixels[offset + 2], pixels[offset + 3])
  }

  /** The array holds this picture. */
  ghost predicate Shows(pixels: array<Byte>, image: Image)
    reads pixels
  {
    image.Valid() && pixels[..] == image.bytes
  }

  ghost predicate Marks(image: Image, background: array<bool>, marked: set<nat>)
    requires image.Valid()
    reads background
  {
    && background.Length == image.Size()
    && marked == set i: nat | i < image.Size() && background[i]
  }

  method EnqueueIfBackground(i: nat, pixels: array<Byte>, background: array<bool>, queue: seq<nat>,
                             ghost image: Image, ghost marked: set<nat>)
    returns (queue': seq<nat>, ghost marked': set<nat>)
    requires Shows(pixels, image) && i < image.Size() && Marks(image, background, marked)
    modifies background
    ensures Marks(image, background, marked')
    ensures if Dark(image, i) && i !in marked
            then marked' == marked + {i} && queue' == queue + [i]
            else marked' == marked && queue' == queue
  {
    queue', marked' := queue, marked;
    if background[i] || !IsBlackBackgroundPixel(pixels, 4 * i) {
      return;
    }
    background[i] := true;
    queue', marked' := queue + [i], marked + {i};
  }

  /**
   * What holds while the fill runs: every pixel ever queued is marked and was reached, and each one waits in
   * the queue, is being expanded, or has all its dark neighbours marked.
   */
  ghost predicate Filling(image: Image, marked: set<nat>, queue: seq<nat>, removed: nat, open: set<nat>)
    requires image.Valid()
  {
    && removed + |queue| == |marked|
    && (forall i | i in queue :: i in marked)
    && (forall i | i in marked :: i < image.Size() && Reached(image, Seeds(image), i))
    && (forall i | i in marked :: i in queue || i in open || Closed(image, marked, i))
  }

  /** Queueing one more reached pixel keeps the account. */
  lemma FillingGrows(image: Image, marked: set<nat>, queue: seq<nat>, removed: nat, open: set<nat>, i: nat)
    requires image.Valid() && i < image.Size() && i !in marked && Reached(image, Seeds(image), i)
    requires Filling(image, marked, queue, removed, open)
    ensures Filling(image, marked + {i}, queue + [i], removed, open)
  {
    assert forall k | k in queue + [i] :: k in queue || k == i;
    assert forall k | k in queue :: k in queue + [i];
  }

  /** Taking the first pixel out of the queue opens it. */
  lemma FillingOpens(image: Image, marked: set<nat>, queue: seq<nat>, removed: nat)
    requires image.Valid() && queue != [] && Filling(image, marked, queue, removed, {})
    ensures Filling(image, marked, queue[1..], removed + 1, {queue[0]})
  {
    assert queue == [queue[0]] + queue[1..];
  }

  lemma FillingCloses(image: Image, marked: set<nat>, queue: seq<nat>, removed: nat, i: nat)
    requires image.Valid() && Filling(image, marked, queue, removed, {i}) && Closed(image, marked, i)
    ensures Filling(image, marked, queue, removed, {})
  {
  }

  /** The neighbour at an offset is outside the grid, not dark, or marked. */
  ghost predicate Handled(image: Image, marked: set<nat>, i: nat, dy: int, dx: int)
    requires image.Valid()
  {
    var y, x := Row(i, image.width) + dy, Col(i, image.width) + dx;
    0 <= x < image.width && 0 <= y < image.height && !(dy == 0 && dx == 0) ==>
      && Index(y, x, image.width) < image.Size()
      && (Dark(image, Index(y, x, image.width)) ==> Index(y, x, image.width) in marked)
  }

  lemma HandledIsClosed(image: Image, marked: set<nat>, i: nat)
    requires image.Valid() && i < image.Size()
    requires forall dy, dx | -1 <= dy <= 1 && -1 <= dx <= 1 :: Handled(image, marked, i, dy, dx)
    ensures Closed(image, marked, i)
  {
    forall j: nat | j < image.Size() && Adjacent(i, j, image.width) && Dark(image, j) ensures j in marked {
      IndexOfCoordinates(i, image.width);
      IndexOfCoordinates(j, image.width);
      RowInGrid(j, image.width, image.height);
      assert Handled(image, marked, i, Row(j, image.width) - Row(i, image.width),
                     Col(j, image.width) - Col(i, image.width));
    }
  }

  lemma NeighbourIsAdjacent(image: Image, i: nat, dy: int, dx: int)
    requires image.Valid() && i < image.Size() && -1 <= dy <= 1 && -1 <= dx <= 1 && !(dy == 0 && dx == 0)
    requires 0 <= Row(i, image.width) + dy < image.height && 0 <= Col(i, image.width) + dx < image.width
    ensures
      var j := Index(Row(i, image.width) + dy, Col(i, image.width) + dx, image.width);
      j < image.Size() && Adjacent(i, j, image.width)
  {
    var y, x := Row(i, image.width) + dy, Col(i, image.width) + dx;
    IndexInGrid(y, x, image.width, image.height);
    CoordinatesOfIndex(y, x, image.width);
  }

  lemma HandledGrows(image: Image, fewer: set<nat>, more: set<nat>, i: nat)
    requires image.Valid() && fewer <= more
    ensures forall dy, dx | Handled(image, fewer, i, dy, dx) :: Handled(image, more, i, dy, dx)
  {
  }

  /** One neighbour of the pixel being expanded. */
  method ScanNeighbour(index: nat, offsetY: int, offsetX: int, width: nat, height: nat,
                       pixels: array<Byte>, background: array<bool>, queue: seq<nat>,
                       ghost image: Image, ghost marked: set<nat>, ghost removed: nat)
    returns (queue': seq<nat>, ghost marked': set<nat>)
    requires Shows(pixels, image) && image.width == width && image.height == height && index in marked
    requires -1 <= offsetY <= 1 && -1 <= offsetX <= 1
    requires Marks(image, background, marked) && Filling(image, marked, queue, removed, {index})
    modifies background
    ensures Marks(image, background, marked') && Filling(image, marked', queue', removed, {index}) && marked <= marked'
    ensures Handled(image, marked', index, offsetY, offsetX)
  {
    hide Reached, Closed, Row, Col, Index;
    queue', marked' := queue, marked;
    if offsetX == 0 && offsetY == 0 {
      return;
    }
    var nextX: int, nextY: int := Col(index, width) + offsetX, Row(index, width) + offsetY;
    if nextX < 0 || nextX >= width || nextY < 0 || nextY >= height {
      return;
    }
    var next := Index(nextY, nextX, width);
    NeighbourIsAdjacent(image, index, offsetY, offsetX);
    if background[next] {
      return;
    }
    if IsBlackBackgroundPixel(pixels, next * 4) {
      ReachedNext(image, Seeds(image), index, next);
      FillingGrows(image, marked, queue, removed, {index}, next);
      background[next] := true;
      queue', marked' := queue + [next], marked + {next};
    }
  }

  /** Marks the dark neighbours of one dequeued pixel. */
  method ScanNeighbours(index: nat, width: nat, height: nat, pixels: array<Byte>, background: array<bool>,
                        queue: seq<nat>,
                        ghost image: Image, ghost marked: set<nat>, ghost removed: nat)
    returns (queue': seq<nat>, ghost marked': set<nat>)
    requires Shows(pixels, image) && image.width == width && image.height == height && index in marked
    requires index < image.Size()
    requires Marks(image, background, marked) && Filling(image, marked, queue, removed, {index})
    modifies background
    ensures Marks(image, background, marked') && Filling(image, marked', queue', removed, {}) && marked <= marked'
  {
    hide Reached, Closed, Handled, Marks, Filling;
    queue', marked' := queue, marked;
    for offsetY := -1 to 2
      invariant Marks(image, background, marked') && Filling(image, marked', queue', removed, {index})
      invariant marked <= marked'
      invariant forall dy, dx | -1 <= dy < offsetY && -1 <= dx <= 1 :: Handled(image, marked', index, dy, dx)
    {
      for offsetX := -1 to 2
        invariant Marks(image, background, marked') && Filling(image, marked', queue', removed, {index})
        invariant marked <= marked'
        invariant forall dy, dx | -1 <= dy < offsetY && -1 <= dx <= 1 :: Handled(image, marked', index, dy, dx)
        invariant forall dx | -1 <= dx < offsetX :: Handled(image, marked', index, offsetY, dx)
      {
        ghost var before := marked';
        queue', marked' :=
            ScanNeighbour(index, offsetY, offsetX, width, height, pixels, background, queue', image, marked', removed);
        HandledGrows(image, before, marked', index);
      }
    }
    HandledIsClosed(image, marked', index);
    FillingCloses(image, marked', queue', removed, index);
  }

  /** A seed that is dark has been marked. */
  ghost predicate Seeded(image: Image, marked: set<nat>, i: nat)
    requires image.Valid()
  {
    i < image.Size() && (Dark(image, i) ==> i in marked)
  }

  ghost predicate SeededAt(image: Image, marked: set<nat>, y: nat, x: nat)
    requires image.Valid()
  {
    Seeded(image, marked, Index(y, x, image.width))
  }

  method EnqueueSeed(i: nat, pixels: array<Byte>, background: array<bool>, queue: seq<nat>, ghost image: Image,
                     ghost marked: set<nat>)
    returns (queue': seq<nat>, ghost marked': set<nat>)
    requires Shows(pixels, image) && i in Seeds(image)
    requires Marks(image, background, marked) && Filling(image, marked, queue, 0, {})
    modifies background
    ensures Marks(image, background, marked') && Filling(image, marked', queue', 0, {}) && marked <= marked'
    ensures Seeded(image, marked', i)
  {
    if Dark(image, i) && i !in marked {
      ReachedFromSeed(image, Seeds(image), i);
      FillingGrows(image, marked, queue, 0, {}, i);
    }
    queue', marked' := EnqueueIfBackground(i, pixels, background, queue, image, marked);
  }

  ghost predicate ColumnSeeded(image: Image, marked: set<nat>, rows: nat, x: nat)
    requires image.Valid()
  {
    forall y: nat | y < rows :: SeededAt(image, marked, y, x)
  }

  ghost predicate RowSeeded(image: Image, marked: set<nat>, y: nat, columns: nat)
    requires image.Valid()
  {
    forall x: nat | 1 <= x < columns :: SeededAt(image, marked, y, x)
  }

  lemma SeededGrows(image: Image, fewer: set<nat>, more: set<nat>)
    requires image.Valid() && fewer <= more
    ensures forall y, x | SeededAt(image, fewer, y, x) :: SeededAt(image, more, y, x)
  {
  }

  /** The two border loops. */
  method EnqueueBorder(width: nat, height: nat, pixels: array<Byte>, background: array<bool>, ghost image: Image)
    returns (queue: seq<nat>, ghost marked: set<nat>)
    requires Shows(pixels, image) && image.width == width && image.height == height
    requires Marks(image, background, {})
    modifies background
    ensures Marks(image, background, marked) && Filling(image, marked, queue, 0, {})
    ensures forall i | i in Seeds(image) :: Seeded(image, marked, i)
  {
    hide Reached, Closed, Row, Col, Index, Marks, Filling;
    queue, marked := [], {};
    FillingStarts(image);
    for y := 0 to height
      invariant Marks(image, background, marked) && Filling(image, marked, queue, 0, {})
      invariant ColumnSeeded(image, marked, y, 0) && (height > 1 ==> ColumnSeeded(image, marked, y, width - 1))
    {
      ColumnSeeds(image, y);
      ghost var before := marked;
      queue, marked := EnqueueSeed(Index(y, 0, width), pixels, background, queue, image, marked);
      if height > 1 {
        queue, marked := EnqueueSeed(Index(y, width - 1, width), pixels, background, queue, image, marked);
      }
      SeededGrows(image, before, marked);
    }
    var x := 1;
    while x < width - 1
      invariant 1 <= x && Marks(image, background, marked) && Filling(image, marked, queue, 0, {})
      invariant ColumnSeeded(image, marked, height, 0)
      invariant (height > 1 ==> ColumnSeeded(image, marked, height, width - 1))
      invariant x < width ==> RowSeeded(image, marked, 0, x) && (height > 1 ==> RowSeeded(image, marked, height - 1, x))
      invariant x <= Max(1, width - 1)
    {
      RowSeeds(image, x);
      ghost var before := marked;
      queue, marked := EnqueueSeed(Index(0, x, width), pixels, background, queue, image, marked);
      if height > 1 {
        queue, marked := EnqueueSeed(Index(height - 1, x, width), pixels, background, queue, image, marked);
      }
      SeededGrows(image, before, marked);
      x := x + 1;
    }
    forall i | i in Seeds(image) ensures Seeded(image, marked, i) {
      IndexOfCoordinates(i, width);
      RowInGrid(i, width, height);
      LastOfOneRow(image);
      assert SeededAt(image, marked, Row(i, width), Col(i, width));
    }
  }

  lemma FillingStarts(image: Image)
    requires image.Valid()
    ensures Filling(image, {}, [], 0, {})
  {
  }

  lemma ColumnSeeds(image: Image, y: nat)
    requires image.Valid() && y < image.height
    ensures Index(y, 0, image.width) in Seeds(image)
    ensures image.height > 1 ==> Index(y, image.width - 1, image.width) in Seeds(image)
  {
    IndexInGrid(y, 0, image.width, image.height);
    IndexInGrid(y, image.width - 1, image.width, image.height);
    CoordinatesOfIndex(y, 0, image.width);
    CoordinatesOfIndex(y, image.width - 1, image.width);
  }

  lemma RowSeeds(image: Image, x: nat)
    requires image.Valid() && 1 <= x < image.width - 1
    ensures Index(0, x, image.width) in Seeds(image) && Index(image.height - 1, x, image.width) in Seeds(image)
  {
    IndexInGrid(0, x, image.width, image.height);
    IndexInGrid(image.height - 1, x, image.width, image.height);
    CoordinatesOfIndex(0, x, image.width);
    CoordinatesOfIndex(image.height - 1, x, image.width);
  }

  /** On an image of one row, the last column is a seed only when it is also the first. */
  lemma LastOfOneRow(image: Image)
    requires image.Valid()
    ensures image.height == 1 && image.width > 1 ==>
              forall i | i in Seeds(image) :: Col(i, image.width) != image.width - 1
  {
    if image.height == 1 && image.width > 1 {
      OneRow(image);
    }
  }

  /** The breadth-first fill: marks exactly what the seeds reach, and counts it. */
  method MarkBackground(width: nat, height: nat, pixels: array<Byte>, ghost image: Image)
    returns (background: array<bool>, removed: nat)
    requires Shows(pixels, image) && image.width == width && image.height == height
    ensures Marks(image, background, Filled(image, Seeds(image))) && fresh(background)
    ensures removed == |Filled(image, Seeds(image))|
  {
    background := new bool[width * height](_ => false);
    assert Marks(image, background, {});
    var queue;
    ghost var marked;
    queue, marked := EnqueueBorder(width, height, pixels, background, image);
    removed := 0;
    while queue != []
      invariant Marks(image, background, marked) && Filling(image, marked, queue, removed, {})
      invariant forall i | i in Seeds(image) :: Seeded(image, marked, i)
      decreases image.Size() - removed
    {
      FillingOpens(image, marked, queue, removed);
      FewerThanPixels(image, marked);
      var index := queue[0];
      queue, removed := queue[1..], removed + 1;
      queue, marked := ScanNeighbours(index, width, height, pixels, background, queue, image, marked, removed);
    }
    ClosedIsFilled(image, Seeds(image), marked);
  }

  lemma {:induction false} FewerThan(n: nat, s: set<nat>)
    requires forall i | i in s :: i < n
    ensures |s| <= n
  {
    if n > 0 {
      FewerThan(n - 1, s - {n - 1});
    } else {
      assert s == {};
    }
  }

  lemma FewerThanPixels(image: Image, marked: set<nat>)
    requires forall i | i in marked :: i < image.Size()
    ensures |marked| <= image.Size()
  {
    FewerThan(image.Size(), marked);
  }

  // ---- The whole routine.

  /** The float arithmetic that thins the alpha of a brighter background pixel is a parameter. */
  type Feather = (Byte, Byte) -> Byte

  function ThinnedAlpha(image: Image, i: nat, feather: Feather): Byte
    requires image.Valid() && i < image.Size()
  {
    var brightness := Brightness(image.bytes[4 * i], image.bytes[4 * i + 1], image.bytes[4 * i + 2]);
    if brightness <= DARK_LIMIT then 0 else feather(image.bytes[4 * i + 3], brightness)
  }

  /**
   * A background pixel none of whose colours is above 42 becomes transparent; a brighter one keeps a part of its alpha.
   */
  lemma ThinnedAlphaMeans(image: Image, i: nat, feather: Feather)
    requires image.Valid() && i < image.Size()
    ensures
      var blue, green, red, alpha :=
        image.bytes[4 * i], image.bytes[4 * i + 1], image.bytes[4 * i + 2], image.bytes[4 * i + 3];
      ThinnedAlpha(image, i, feather) ==
        if blue <= 42 && green <= 42 && red <= 42 then 0 else feather(alpha, Brightness(blue, green, red))
  {
  }

  /** Alphas of the marked pixels below `count` are thinned; every other byte is the old one. */
  ghost predicate Thinned(image: Image, marked: set<nat>, count: nat, feather: Feather, bytes: seq<Byte>)
    requires image.Valid() && count <= image.Size()
  {
    && |bytes| == |image.bytes|
    && (forall k | 0 <= k < |bytes| && (k % 4 != 3 || k / 4 !in marked || k / 4 >= count) :: bytes[k] == image.bytes[k])
    && forall i | i in marked && i < count :: bytes[4 * i + 3] == ThinnedAlpha(image, i, feather)
  }

  /**
   * Thins exactly the dark region reached from the border seeds, when that region is large enough, and
   * changes nothing otherwise. The result says whether a new picture was made.
   */
  method RemoveOpaqueBlackBackground(width: nat, height: nat, pixels: array<Byte>, feather: Feather)
    returns (changed: bool)
    requires pixels.Length == 4 * (width * height)
    modifies pixels
    ensures !changed ==> pixels[..] == old(pixels[..])
    ensures changed ==>
              var image := Image(old(pixels[..]), width, height);
              && image.Valid() && image.Size() <= 4_000_000
              && |Filled(image, Seeds(image))| >= Max(8, Min(width, height) / 2)
              && Thinned(image, Filled(image, Seeds(image)), image.Size(), feather, pixels[..])
    ensures !changed ==>
              var image := Image(old(pixels[..]), width, height);
              || !image.Valid() || image.Size() > 4_000_000
              || |Filled(image, Seeds(image))| < Max(8, Min(width, height) / 2)
  {
    if width == 0 || height == 0 || width * height > PIXEL_LIMIT {
      return false;
    }
    ghost var image := Image(pixels[..], width, height);
    assert image.Valid() by {
      assert width * height > 0;
    }
    var background, removed := MarkBackground(width, height, pixels, image);
    if removed < Max(8, Min(width, height) / 2) {
      return false;
    }
    ThinMarked(pixels, background, feather, image, Filled(image, Seeds(image)));
    return true;
  }

  /** The pass over the marked pixels that rewrites their alpha in place. */
  method ThinMarked(pixels: array<Byte>, background: array<bool>, feather: Feather, ghost image: Image,
                    ghost marked: set<nat>)
    requires Shows(pixels, image) && Marks(image, background, marked)
    modifies pixels
    ensures Thinned(image, marked, image.Size(), feather, pixels[..])
  {
    hide Thinned;
    ThinStart(image, marked, feather);
    for i := 0 to background.Length
      invariant Thinned(image, marked, i, feather, pixels[..])
    {
      ThinNext(image, marked, i, feather, pixels[..]);
      if !background[i] {
        continue;
      }
      var offset := 4 * i;
      var brightness := Brightness(pixels[offset], pixels[offset + 1], pixels[offset + 2]);
      ghost var before := pixels[..];
      if brightness <= DARK_LIMIT {
        pixels[offset + 3] := 0;
      } else {
        pixels[offset + 3] := feather(pixels[offset + 3], brightness);
      }
      assert pixels[..] == before[offset + 3 := ThinnedAlpha(image, i, feather)];
    }
  }

  lemma ThinStart(image: Image, marked: set<nat>, feather: Feather)
    requires image.Valid()
    ensures Thinned(image, marked, 0, feather, image.bytes)
  {
  }

  lemma ThinNext(image: Image, marked: set<nat>, i: nat, feather: Feather, bytes: seq<Byte>)
    requires image.Valid() && i < image.Size() && Thinned(image, marked, i, feather, bytes)
    ensures forall k | 4 * i <= k < 4 * i + 4 :: bytes[k] == image.bytes[k]
    ensures if i in marked then Thinned(image, marked, i + 1, feather,
                                        bytes[4 * i + 3 := ThinnedAlpha(image, i, feather)])
            else Thinned(image, marked, i + 1, feather, bytes)
  {
    assert forall k | 4 * i <= k < 4 * i + 4 :: k / 4 == i;
  }
}
