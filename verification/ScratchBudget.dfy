/** One download as a function of what is on disk, what servers answer and what the budget has left. */
module ArtifactDownload {
  import opened Common

  /** What a server sends: its status, where its range starts, the length it announces, and the reads of its body. */
  datatype Response =
    | Refused(retryable: bool)
    | Body(partialContent: bool, rangeStart: Option<nat>, contentLength: Option<nat>, pieces: seq<nat>,
           interrupted: bool)

  /** Where an attempt stopped. */
  datatype Stage = ResizeRefused | BeforeResponse | Restarted | Continued | Streaming | Complete

  datatype Attempt = Attempt(stage: Stage, retryable: bool)

  /** The largest artifact allowed, its size if that is known, and how far the budget lets its reservation grow. */
  datatype Terms = Terms(maxArtifactBytes: nat, expectedSize: Option<nat>, room: int)

  predicate Allowed(t: Terms, bytes: nat) {
    bytes <= t.maxArtifactBytes && (t.expectedSize.Some? ==> bytes <= t.expectedSize.value)
  }

  predicate Affordable(t: Terms, bytes: nat) {
    t.expectedSize.Some? || bytes <= t.room
  }

  function Length(pieces: seq<nat>): nat {
    if pieces == [] then 0 else pieces[0] + Length(pieces[1..])
  }

  /** The bytes on disk that an attempt keeps at first. */
  function Kept(t: Terms, part: nat): nat {
    if Allowed(t, part) then part else 0
  }

  /** Where the body of an answer is written. */
  function ContinuesAt(t: Terms, part: nat, response: Response): nat
    requires response.Body?
  {
    if response.partialContent && response.rangeStart == Some(Kept(t, part)) then Kept(t, part) else 0
  }

  /** A length that is announced is allowed and affordable. */
  predicate Announces(t: Terms, offset: nat, response: Response)
    requires response.Body?
  {
    response.contentLength.Some? ==>
      Allowed(t, response.contentLength.value + offset) && Affordable(t, response.contentLength.value + offset)
  }

  /** The body ends where it should, and the whole of it is allowed and affordable. */
  predicate Delivers(t: Terms, offset: nat, response: Response)
    requires response.Body?
  {
    var total := offset + Length(response.pieces);
    && !response.interrupted && 0 < total && Allowed(t, total) && Affordable(t, total)
    && (t.expectedSize.Some? ==> total == t.expectedSize.value)
  }

  /** The answer starts over, and is refused before the old bytes are truncated. */
  predicate StopsInRestart(t: Terms, part: nat, response: Response) {
    && Affordable(t, Kept(t, part)) && response.Body?
    && Kept(t, part) > 0 && ContinuesAt(t, part, response) == 0 && !Announces(t, 0, response)
  }

  function StageOf(t: Terms, part: nat, response: Response): Stage {
    if !Affordable(t, Kept(t, part)) then ResizeRefused
    else if response.Refused? then BeforeResponse
    else if StopsInRestart(t, part, response) then Restarted
    else
      var offset := ContinuesAt(t, part, response);
      if !Announces(t, offset, response) then Continued else if Delivers(t, offset,
              response) then Complete else Streaming
  }

  /** How far a body is written: all of it, or up to the first read that is not allowed or not affordable. */
  datatype Drained = Drained(written: nat, refused: Option<bool>)

  function DrainedFrom(t: Terms, offset: nat, pieces: seq<nat>): Drained
    decreases |pieces|
  {
    if pieces == [] then Drained(offset, None)
    else if !Allowed(t, offset + pieces[0]) then Drained(offset, Some(false))
    else if !Affordable(t, offset + pieces[0]) then Drained(offset, Some(true))
    else DrainedFrom(t, offset + pieces[0], pieces[1..])
  }

  /** An attempt that fails may be worth another. */
  predicate Retryable(t: Terms, part: nat, response: Response) {
    match StageOf(t, part, response)
    case ResizeRefused => true
    case BeforeResponse => response.Refused? && response.retryable
    case Complete => false
    case Streaming =>
      response.Body? &&
      var drained := DrainedFrom(t, ContinuesAt(t, part, response), response.pieces);
      if drained.refused.Some? then drained.refused.value else response.interrupted || drained.written > 0
    case _ =>
      response.Body? &&
      var offset := ContinuesAt(t, part, response);
      response.contentLength.Some? && Allowed(t, response.contentLength.value + offset)
  }

  /** What an attempt leaves on disk. */
  function PartAfter(t: Terms, part: nat, response: Response): nat {
    if response.Body? && StageOf(t, part, response) in {Streaming, Complete} then
      DrainedFrom(t, ContinuesAt(t, part, response), response.pieces).written
    else Kept(t, part)
  }

  /** Attempts go on while they are worth it and answers are left. */
  predicate Succeeds(t: Terms, part: nat, responses: seq<Response>)
    decreases |responses|
  {
    && responses != []
    && (StageOf(t, part, responses[0]).Complete?
        || (Retryable(t, part, responses[0]) && Succeeds(t, PartAfter(t, part, responses[0]), responses[1..])))
  }

  /** A body is written to its end exactly when its whole length is allowed and affordable. */
  lemma {:induction false} DrainedMeans(t: Terms, offset: nat, pieces: seq<nat>)
    requires Allowed(t, offset) && Affordable(t, offset)
    ensures
      var drained := DrainedFrom(t, offset, pieces);
      && (drained.refused.None? <==> Allowed(t, offset + Length(pieces)) && Affordable(t, offset + Length(pieces)))
      && (drained.refused.None? ==> drained.written == offset + Length(pieces))
      && offset <= drained.written && Allowed(t, drained.written) && Affordable(t, drained.written)
    decreases |pieces|
  {
    if pieces == [] {
      // Nothing is read, so nothing is refused.
    } else if Allowed(t, offset + pieces[0]) && Affordable(t, offset + pieces[0]) {
      DrainedMeans(t, offset + pieces[0], pieces[1..]);
    }
  }

  /** What an attempt leaves on disk is allowed, and affordable unless the attempt could not even begin. */
  lemma PartAfterIsAllowed(t: Terms, part: nat, response: Response)
    ensures Allowed(t, PartAfter(t, part, response))
    ensures Affordable(t, PartAfter(t, part, response)) <==> Affordable(t, Kept(t, part))
  {
    if response.Body? && StageOf(t, part, response) in {Streaming, Complete} {
      DrainedMeans(t, ContinuesAt(t, part, response), response.pieces);
    }
  }

  /** Why an attempt completes, is refused or stops in a restart; dropping an oversized file first changes nothing. */
  lemma Refusals(t: Terms, part: nat, response: Response)
    ensures StageOf(t, part, response).ResizeRefused? <==> !Affordable(t, Kept(t, part))
    ensures StageOf(t, part, response).Restarted? <==> StopsInRestart(t, part, response)
    ensures StageOf(t, part, response).Complete? <==>
              && Affordable(t, Kept(t, part)) && response.Body?
              && Announces(t, ContinuesAt(t, part, response), response) && Delivers(t, ContinuesAt(t, part, response),
                      response)
    ensures !Affordable(t, Kept(t, part)) ==>
              Retryable(t, part, response) && PartAfter(t, part, response) == Kept(t, part) &&
                  !StopsInRestart(t, part, response)
    ensures StageOf(t, Kept(t, part), response) == StageOf(t, part, response)
    ensures Retryable(t, Kept(t, part), response) == Retryable(t, part, response)
    ensures PartAfter(t, Kept(t, part), response) == PartAfter(t, part, response)
    ensures StopsInRestart(t, Kept(t, part), response) == StopsInRestart(t, part, response)
  {
  }

  /** Where an attempt that can begin goes from the answer. */
  lemma AnswerCases(t: Terms, part: nat, response: Response)
    requires Allowed(t, part) && Affordable(t, part)
    ensures response.Refused? ==>
              && StageOf(t, part, response) == BeforeResponse && Retryable(t, part, response) == response.retryable
              && PartAfter(t, part, response) == part && !StopsInRestart(t, part, response)
    ensures response.Body? ==>
              var continues := part > 0 && response.partialContent && response.rangeStart == Some(part);
              var offset := if continues then part else 0;
              if !Announces(t, offset, response) then
                && StageOf(t, part, response) == (if part > 0 && !continues then Restarted else Continued)
                && StopsInRestart(t, part, response) == (part > 0 && !continues)
                && response.contentLength.Some?
                && Retryable(t, part, response) == Allowed(t, response.contentLength.value + offset)
                && PartAfter(t, part, response) == part
              else
                var drained := DrainedFrom(t, offset, response.pieces);
                && StageOf(t, part, response) == (if Delivers(t, offset, response) then Complete else Streaming)
                && PartAfter(t, part, response) == drained.written && !StopsInRestart(t, part, response)
                && (Retryable(t, part, response) <==>
                     && !Delivers(t, offset, response)
                     && if drained.refused.Some? then drained.refused.value
                        else response.interrupted || drained.written > 0)
  {
  }

  /** A completed artifact is not empty, not too large, and of the expected size. */
  lemma CompleteMeans(t: Terms, part: nat, response: Response)
    requires StageOf(t, part, response).Complete?
    ensures
      var after := PartAfter(t, part, response);
      0 < after <= t.maxArtifactBytes && (t.expectedSize.Some? ==> after == t.expectedSize.value)
  {
    DrainedMeans(t, ContinuesAt(t, part, response), response.pieces);
  }

  /**
   * When an attempt completes, in terms of the limits: the old bytes are kept if they are within them, they can be
   * reserved if no size is known, the body continues them or starts over, and it ends, uninterrupted, in a length
   * within the limits that can be reserved, as must the length it announces. Then that length is on disk.
   */
  lemma CompleteIff(t: Terms, part: nat, response: Response)
    ensures
      var most := match t.expectedSize case None => t.maxArtifactBytes case Some(size) => Min(size, t.maxArtifactBytes);
      var kept := if part <= most then part else 0;
      var continues := response.Body? && response.partialContent && response.rangeStart == Some(kept);
      var offset := if continues then kept else 0;
      var total := if response.Body? then offset + Length(response.pieces) else 0;
      && (StageOf(t, part, response).Complete? <==>
            && response.Body? && !response.interrupted && 0 < total <= most
            && (t.expectedSize.None? ==> kept <= t.room && total <= t.room)
            && (t.expectedSize.Some? ==> total == t.expectedSize.value)
            && (response.contentLength.Some? ==>
                  && response.contentLength.value + offset <= most
                  && (t.expectedSize.None? ==> response.contentLength.value + offset <= t.room)))
      && (StageOf(t, part, response).Complete? ==> PartAfter(t, part, response) == total)
  {
    hide DrainedFrom, Length;
    if StageOf(t, part, response).Complete? {
      DrainedMeans(t, ContinuesAt(t, part, response), response.pieces);
    }
  }

  /** A whole answer that does not continue anything. */
  predicate WholeAnswer(t: Terms, response: Response) {
    response.Body? && !response.partialContent && Announces(t, 0, response) && Delivers(t, 0, response)
  }

  /** While it cannot be reserved, a file left from before blocks every attempt, whatever servers answer. */
  lemma {:induction false} StaleFileBlocks(t: Terms, part: nat, responses: seq<Response>)
    requires !Affordable(t, Kept(t, part))
    ensures !Succeeds(t, part, responses)
    decreases |responses|
  {
    if responses == [] {
      // No attempt, no success.
    } else {
      assert PartAfter(t, part, responses[0]) == Kept(t, part) && Kept(t, Kept(t, part)) == Kept(t, part);
      StaleFileBlocks(t, PartAfter(t, part, responses[0]), responses[1..]);
    }
  }

  /** With room for ten bytes and three old ones on disk, an answer that starts over and announces twenty is refused. */
  lemma RestartIsRefused()
    ensures StopsInRestart(Terms(100, None, 10), 3, Body(false, None, Some(20), [], false))
    ensures PartAfter(Terms(100, None, 10), 3, Body(false, None, Some(20), [], false)) == 3
  {
  }

  /** With room for one byte, three old ones on disk cannot be reserved. */
  lemma LeftoverIsUnaffordable()
    ensures !Affordable(Terms(100, None, 1), Kept(Terms(100, None, 1), 3))
  {
  }

  /** The failures before the answer at `k` are all worth another attempt. */
  predicate RetriesUpTo(t: Terms, part: nat, responses: seq<Response>, k: nat)
    decreases k
  {
    k == 0 || (responses != [] && Retryable(t, part, responses[0])
               && RetriesUpTo(t, PartAfter(t, part, responses[0]), responses[1..], k - 1))
  }

  /**
   * Once retries lead to an answer that brings the whole artifact, the download succeeds exactly when the file
   * left from before could be reserved: only that can stand in the way.
   */
  lemma {:induction false} WholeAnswerSucceedsIff(t: Terms, part: nat, responses: seq<Response>, k: nat)
    requires k < |responses| && RetriesUpTo(t, part, responses, k) && WholeAnswer(t, responses[k])
    ensures Succeeds(t, part, responses) <==> Affordable(t, Kept(t, part))
    decreases k
  {
    if !Affordable(t, Kept(t, part)) {
      StaleFileBlocks(t, part, responses);
    } else if k == 0 {
      assert StageOf(t, part, responses[0]).Complete?;
    } else {
      var after := PartAfter(t, part, responses[0]);
      PartAfterIsAllowed(t, part, responses[0]);
      assert responses[1..][k - 1] == responses[k];
      WholeAnswerSucceedsIff(t, after, responses[1..], k - 1);
    }
  }
}

/** A shared budget of temporary bytes, its live reservations, and the downloads that spend from it. */
module ScratchBudget {
  import opened Common
  import opened ArtifactDownload
  import opened MapSums

  datatype BudgetError = Negative | Exhausted | AlreadyReleased

  class Budget {
    const maxBytes: nat

    var used: nat

    /** What each live reservation holds. */
    ghost var ledger: map<Reservation, nat>

    constructor (maxBytes: nat)
      ensures Valid() && this.maxBytes == maxBytes && used == 0 && ledger == map[]
    {
      this.maxBytes, used, ledger := maxBytes, 0, map[];
    }

    /** The bytes in use are those of the live reservations, and never more than the maximum. */
    ghost predicate Valid()
      reads this, ledger.Keys
    {
      && used == Sum(ledger) && used <= maxBytes
      && forall r | r in ledger :: r.budget == this && !r.released && r.amount == ledger[r]
    }

    method Reserve(amount: int) returns (r: Result<Reservation, BudgetError>)
      requires Valid()
      modifies this
      ensures Valid()
      ensures r.Ok? <==> 0 <= amount && old(used) + amount <= maxBytes
      ensures r.Ok? ==>
                && fresh(r.value) && r.value.budget == this && r.value.amount == amount && !r.value.released
                && ledger == old(ledger)[r.value := amount] && used == old(used) + amount
      ensures r.Err? ==> used == old(used) && ledger == old(ledger)
    {
      if amount < 0 {
        return Err(Negative);
      }
      var taken := Take(amount);
      if !taken {
        return Err(Exhausted);
      }
      var reservation := new Reservation(this, amount);
      SumInsert(ledger, reservation, amount);
      ledger := ledger[reservation := amount];
      return Ok(reservation);
    }

    /** The locked addition; changes nothing when the budget does not allow it. */
    method Take(amount: nat) returns (taken: bool)
      modifies this`used
      ensures taken == (old(used) + amount <= maxBytes)
      ensures used == if taken then old(used) + amount else old(used)
    {
      taken := used + amount <= maxBytes;
      if taken {
        used := used + amount;
      }
    }

    /** The locked subtraction, with the source's clamp at zero. */
    method GiveBack(amount: nat)
      modifies this`used
      ensures used == Max(0, old(used) - amount)
    {
      used := Max(0, used - amount);
    }
  }

  class Reservation {
    const budget: Budget

    var amount: nat
    var released: bool

    constructor (budget: Budget, amount: nat)
      ensures this.budget == budget && this.amount == amount && !released
    {
      this.budget, this.amount, released := budget, amount, false;
    }

    ghost predicate Live()
      reads this, budget
    {
      !released && this in budget.ledger
    }

    /** Gives everything back, once; the clamp is not needed. */
    method Release()
      requires budget.Valid() && (Live() || (released && this !in budget.ledger))
      modifies this, budget
      ensures budget.Valid() && released
      ensures !old(released) ==> amount == 0
      ensures budget.used == old(budget.used) - (if old(released) then 0 else old(amount))
      ensures budget.ledger == old(budget.ledger) - {this}
    {
      if !released {
        SumRemove(budget.ledger, this);
        released := true;
        budget.GiveBack(amount);
        budget.ledger := budget.ledger - {this};
        amount := 0;
      } else {
        assert budget.ledger - {this} == budget.ledger;
      }
    }

    /** Grows or shrinks the reservation; a refused change leaves everything as it was. */
    method Resize(size: int) returns (error: Option<BudgetError>)
      requires budget.Valid() && (Live() || released)
      modifies this`amount, budget
      ensures budget.Valid() && released == old(released)
      ensures error.None? <==> !released && 0 <= size && old(budget.used) - old(amount) + size <= budget.maxBytes
      ensures error.None? ==>
                && amount == size && budget.ledger == old(budget.ledger)[this := size]
                && budget.used == old(budget.used) - old(amount) + size
      ensures error.Some? ==>
                amount == old(amount) && budget.ledger == old(budget.ledger) && budget.used == old(budget.used)
    {
      if released {
        return Some(AlreadyReleased);
      }
      SumRemove(budget.ledger, this);
      if size < 0 {
        return Some(Negative);
      }
      if size > amount {
        var taken := budget.Take(size - amount);
        if !taken {
          return Some(Exhausted);
        }
      } else if size < amount {
        budget.GiveBack(amount - size);
      }
      SumInsert(budget.ledger, this, size);
      amount := size;
      budget.ledger := budget.ledger[this := size];
      return None;
    }

    method Grow(size: nat) returns (error: Option<BudgetError>)
      requires budget.Valid() && Live()
      modifies this`amount, budget
      ensures budget.Valid() && Live()
      ensures error.None? ==> amount == Max(old(amount), size) && budget.ledger == old(budget.ledger)[this := amount]
      ensures error.Some? ==>
                && old(amount) < size && old(budget.used) - old(amount) + size > budget.maxBytes
                && amount == old(amount) && budget.ledger == old(budget.ledger) && budget.used == old(budget.used)
      ensures budget.used == old(budget.used) - old(amount) + amount
    {
      error := None;
      if size > amount {
        error := Resize(size);
      } else {
        assert budget.ledger[this := amount] == budget.ledger;
      }
    }
  }

  // ---- Downloads.

  class Download {
    const maxArtifactBytes: nat
    const expectedSize: Option<nat>
    const reservation: Reservation

    /** How many bytes the partial file on disk has. */
    var part: nat

    constructor (maxArtifactBytes: nat, expectedSize: Option<nat>, reservation: Reservation, part: nat)
      ensures this.maxArtifactBytes == maxArtifactBytes && this.expectedSize == expectedSize
      ensures this.reservation == reservation && this.part == part
    {
      this.maxArtifactBytes, this.expectedSize, this.reservation, this.part :=
          maxArtifactBytes, expectedSize, reservation, part;
    }

    ghost predicate Ready()
      reads this, reservation, reservation.budget, reservation.budget.ledger.Keys
    {
      && reservation.budget.Valid() && reservation.Live()
      && (expectedSize.Some? ==> reservation.amount == expectedSize.value)
    }

    /** Everything the budget lends to others is as it was. */
    twostate predicate OthersUntouched()
      reads reservation.budget, reservation
    {
      && reservation.budget.ledger - {reservation} == old(reservation.budget.ledger) - {reservation}
      && reservation.budget.used == old(reservation.budget.used) - old(reservation.amount) + reservation.amount
    }

    function CurrentTerms(): Terms
      reads reservation, reservation.budget
    {
      Terms(maxArtifactBytes, expectedSize,
            reservation.budget.maxBytes - (reservation.budget.used - reservation.amount))
    }

    /**
     * One attempt. It stops where the answer and the file on disk say, and leaves the bytes they say. These bytes
     * are covered by the reservation, except exactly when an artifact of unknown size could not reserve the bytes
     * left from before, or gave them up for a restart that was refused before the file was truncated.
     */
    method DownloadOnce(response: Response) returns (attempt: Attempt)
      requires Ready()
      modifies this`part, reservation`amount, reservation.budget
      ensures Ready() && OthersUntouched() && CurrentTerms() == old(CurrentTerms())
      ensures attempt ==
                Attempt(StageOf(CurrentTerms(), old(part), response), Retryable(CurrentTerms(), old(part), response))
      ensures part == PartAfter(CurrentTerms(), old(part), response)
      ensures attempt.stage.Complete? <==>
                && Affordable(CurrentTerms(), Kept(CurrentTerms(), old(part))) && response.Body?
                && Announces(CurrentTerms(), ContinuesAt(CurrentTerms(), old(part), response), response)
                && Delivers(CurrentTerms(), ContinuesAt(CurrentTerms(), old(part), response), response)
      ensures attempt.stage.ResizeRefused? <==> !Affordable(CurrentTerms(), Kept(CurrentTerms(), old(part)))
      ensures attempt.stage.Restarted? <==> StopsInRestart(CurrentTerms(), old(part), response)
      ensures part <= reservation.amount <==>
                !(expectedSize.None? &&
                  (|| !Affordable(CurrentTerms(), Kept(CurrentTerms(), old(part)))
                   || StopsInRestart(CurrentTerms(), old(part), response)))
      ensures attempt.stage.Complete? ==>
                0 < part <= maxArtifactBytes && (expectedSize.Some? ==> part == expectedSize.value)
    {
      hide Sum, StageOf, Retryable, PartAfter, StopsInRestart;
      ghost var terms, before := CurrentTerms(), part;
      var begun := Begin();
      Refusals(terms, before, response);
      if begun {
        attempt := DownloadWithResponse(response);
      } else {
        attempt := Attempt(ResizeRefused, true);
      }
      if attempt.stage.Complete? {
        CompleteMeans(terms, before, response);
      }
    }

    /** The part of an attempt that begins with the server's answer. */
    method DownloadWithResponse(response: Response) returns (attempt: Attempt)
      requires Ready() && Allowed(CurrentTerms(), part) && Affordable(CurrentTerms(), part)
      requires part <= reservation.amount
      modifies this`part, reservation`amount, reservation.budget
      ensures Ready() && OthersUntouched() && CurrentTerms() == old(CurrentTerms())
      ensures attempt ==
                Attempt(StageOf(CurrentTerms(), old(part), response), Retryable(CurrentTerms(), old(part), response))
      ensures part == PartAfter(CurrentTerms(), old(part), response)
      ensures part <= reservation.amount <==>
                !(expectedSize.None? && StopsInRestart(CurrentTerms(), old(part), response))
    {
      hide Sum, DrainedFrom, StageOf, Retryable, PartAfter, StopsInRestart, Delivers, Announces;
      AnswerCases(CurrentTerms(), part, response);
      if response.Refused? {
        return Attempt(BeforeResponse, response.retryable);
      }
      var offset := part;
      var append := offset > 0 && response.partialContent && response.rangeStart == Some(offset);
      var restarted := offset > 0 && !append;
      if restarted {
        offset := 0;
        GiveUp();
      }
      var refused := Announce(response, offset);
      if refused.Some? {
        return Attempt(if restarted then Restarted else Continued, refused.value);
      }
      if !append {
        part := 0;
      }
      attempt := Stream(offset, response);
    }

    /** An answer that does not continue the file: its reservation is given up ahead of the file itself. */
    method GiveUp()
      requires Ready()
      modifies reservation`amount, reservation.budget
      ensures Ready() && OthersUntouched() && CurrentTerms() == old(CurrentTerms())
      ensures reservation.amount == if expectedSize.None? then 0 else old(reservation.amount)
    {
      hide Sum;
      if expectedSize.None? {
        var _ := reservation.Resize(0);
      }
    }

    /** Drops an oversized partial file, and reserves what is on disk when the size is not known. */
    method Begin() returns (begun: bool)
      requires Ready()
      modifies this`part, reservation`amount, reservation.budget
      ensures Ready() && OthersUntouched() && CurrentTerms() == old(CurrentTerms())
      ensures part == Kept(CurrentTerms(), old(part)) && (begun <==> Affordable(CurrentTerms(), part))
      ensures begun ==> part <= reservation.amount
      ensures !begun ==> expectedSize.None? && part > reservation.amount
    {
      hide Sum;
      if part > maxArtifactBytes || (expectedSize.Some? && part > expectedSize.value) {
        part := 0;
      }
      begun := true;
      if expectedSize.None? {
        var error := reservation.Resize(part);
        begun := error.None?;
      }
    }

    /** An announced length must be allowed, and is reserved ahead; a refusal says whether to try again. */
    method Announce(response: Response, offset: nat) returns (refused: Option<bool>)
      requires Ready() && response.Body?
      modifies reservation`amount, reservation.budget
      ensures Ready() && OthersUntouched() && CurrentTerms() == old(CurrentTerms())
      ensures refused.None? <==> Announces(CurrentTerms(), offset, response)
      ensures refused.Some? ==> refused.value == Allowed(CurrentTerms(), response.contentLength.value + offset)
      ensures reservation.amount ==
                if refused.None? && response.contentLength.Some? && expectedSize.None?
                then Max(old(reservation.amount), response.contentLength.value + offset) else old(reservation.amount)
    {
      hide Sum;
      refused := None;
      if response.contentLength.Some? {
        var advertised := response.contentLength.value + offset;
        if advertised > maxArtifactBytes || (expectedSize.Some? && advertised > expectedSize.value) {
          return Some(false);
        }
        if expectedSize.None? {
          var error := reservation.Grow(advertised);
          if error.Some? {
            return Some(true);
          }
        }
      }
    }

    /** One read: it must be allowed, then be reserved, and only then is it written. */
    method Write(written: nat, read: nat) returns (refused: Option<bool>)
      requires Ready() && part == written <= reservation.amount
      modifies this`part, reservation`amount, reservation.budget
      ensures Ready() && OthersUntouched() && CurrentTerms() == old(CurrentTerms())
      ensures refused ==
                if !Allowed(CurrentTerms(), written + read) then Some(false)
                else if !Affordable(CurrentTerms(), written + read) then Some(true) else None
      ensures part == (if refused.None? then written + read else written) <= reservation.amount
    {
      hide Sum;
      if written + read > maxArtifactBytes || (expectedSize.Some? && written + read > expectedSize.value) {
        return Some(false);
      }
      if expectedSize.None? {
        var error := reservation.Grow(written + read);
        if error.Some? {
          return Some(true);
        }
      }
      part := part + read;
      return None;
    }

    /** The read loop: it ends at once when a read is not allowed or cannot be reserved. */
    method Drain(offset: nat, pieces: seq<nat>) returns (refused: Option<bool>)
      requires Ready() && part == offset <= reservation.amount
      modifies this`part, reservation`amount, reservation.budget
      ensures Ready() && OthersUntouched() && CurrentTerms() == old(CurrentTerms()) && part <= reservation.amount
      ensures Drained(part, refused) == DrainedFrom(CurrentTerms(), offset, pieces)
    {
      hide Sum, Allowed, Affordable;
      var written := offset;
      assert pieces[0..] == pieces;
      for k := 0 to |pieces|
        invariant Ready() && OthersUntouched() && CurrentTerms() == old(CurrentTerms())
        invariant part == written <= reservation.amount
        invariant DrainedFrom(CurrentTerms(), offset, pieces) == DrainedFrom(CurrentTerms(), written, pieces[k..])
      {
        assert pieces[k..][0] == pieces[k] && pieces[k..][1..] == pieces[k + 1..];
        refused := Write(written, pieces[k]);
        if refused.Some? {
          return;
        }
        written := written + pieces[k];
      }
      return None;
    }

    /** The body of an answer: read it all, then check how it ended. */
    method Stream(offset: nat, response: Response) returns (attempt: Attempt)
      requires Ready() && response.Body? && part == offset <= reservation.amount
      requires Allowed(CurrentTerms(), offset) && Affordable(CurrentTerms(), offset)
      modifies this`part, reservation`amount, reservation.budget
      ensures Ready() && OthersUntouched() && CurrentTerms() == old(CurrentTerms())
      ensures part == DrainedFrom(CurrentTerms(), offset, response.pieces).written <= reservation.amount
      ensures attempt.stage == if Delivers(CurrentTerms(), offset, response) then Complete else Streaming
      ensures attempt.retryable <==>
                && !attempt.stage.Complete?
                && var drained := DrainedFrom(CurrentTerms(), offset, response.pieces);
                   if drained.refused.Some? then drained.refused.value else response.interrupted || drained.written > 0
    {
      hide Sum;
      DrainedMeans(CurrentTerms(), offset, response.pieces);
      var refused := Drain(offset, response.pieces);
      if refused.Some? {
        return Attempt(Streaming, refused.value);
      }
      if response.interrupted {
        return Attempt(Streaming, true);
      }
      if part == 0 {
        return Attempt(Streaming, false);
      }
      if expectedSize.Some? && part != expectedSize.value {
        return Attempt(Streaming, true);
      }
      return Attempt(Complete, false);
    }
  }

  /** An unknown size, or one within bounds that the budget can reserve. */
  predicate Accepts(t: Terms) {
    t.expectedSize.Some? ==> 0 < t.expectedSize.value <= t.maxArtifactBytes && t.expectedSize.value <= t.room
  }

  /**
   * A whole download: reserve, try while it is worth it, and give everything back however it ends. It completes
   * exactly when its terms are acceptable and the answers, taken in turn, succeed.
   */
  method DownloadArtifact(budget: Budget, maxArtifactBytes: nat, expectedSize: Option<nat>, maxAttempts: nat,
                          responses: seq<Response>, part: nat)
    returns (complete: bool, attempts: nat)
    requires budget.Valid() && maxAttempts >= 1 && |responses| >= maxAttempts
    modifies budget
    ensures budget.Valid() && budget.used == old(budget.used) && budget.ledger == old(budget.ledger)
    ensures
      var terms := Terms(maxArtifactBytes, expectedSize, budget.maxBytes - old(budget.used));
      && attempts <= maxAttempts && (attempts == 0 <==> !Accepts(terms))
      && (complete <==> Accepts(terms) && Succeeds(terms, part, responses[..maxAttempts]))
  {
    hide Sum, StageOf, Retryable, PartAfter;
    if expectedSize.Some? && !(0 < expectedSize.value <= maxArtifactBytes) {
      return false, 0;
    }
    var reserved := budget.Reserve(if expectedSize.Some? then expectedSize.value else 0);
    if reserved.Err? {
      return false, 0;
    }
    var reservation := reserved.value;
    assert reservation !in old(budget.ledger) by {
      assert forall r | r in old(budget.ledger) :: !fresh(r);
    }
    assert budget.ledger - {reservation} == old(budget.ledger);
    var download := new Download(maxArtifactBytes, expectedSize, reservation, part);
    ghost var terms := Terms(maxArtifactBytes, expectedSize, budget.maxBytes - old(budget.used));
    complete, attempts := false, 0;
    assert responses[..maxAttempts][0..] == responses[..maxAttempts];
    while attempts < maxAttempts
      invariant attempts <= maxAttempts && download.Ready() && download.CurrentTerms() == terms && !complete
      invariant budget.ledger - {reservation} == old(budget.ledger)
      invariant budget.used == old(budget.used) + reservation.amount && reservation !in old(budget.ledger)
      invariant fresh(reservation) && fresh(download)
      invariant Succeeds(terms, part, responses[..maxAttempts]) <==>
                  Succeeds(terms, download.part, responses[..maxAttempts][attempts..])
    {
      ghost var left := responses[..maxAttempts][attempts..];
      assert left[0] == responses[attempts] && left[1..] == responses[..maxAttempts][attempts + 1..];
      attempts := attempts + 1;
      var attempt := download.DownloadOnce(responses[attempts - 1]);
      complete := attempt.stage.Complete?;
      if complete || !attempt.retryable {
        break;
      }
    }
    reservation.Release();
  }

  // ---- How the bytes on disk come to exceed the reservation.

  /** A whole new file is announced that the budget cannot hold: three old bytes stay, and fewer are reserved. */
  method UncoveredAfterRestart() returns (terms: Terms, response: Response, bytesOnDisk: nat, reserved: nat)
    ensures terms == Terms(100, None, 10) && response == Body(false, None, Some(20), [], false)
    ensures StopsInRestart(terms, 3, response) && bytesOnDisk == PartAfter(terms, 3, response) == 3 > reserved
  {
    var budget := new Budget(10);
    var reservation := budget.Reserve(0);
    var download := new Download(100, None, reservation.value, 3);
    terms, response := download.CurrentTerms(), Body(false, None, Some(20), [], false);
    var attempt := download.DownloadOnce(response);
    return terms, response, download.part, reservation.value.amount;
  }

  /** Another download holds the budget: the three bytes left from before cannot be reserved. */
  method UncoveredFromStart() returns (terms: Terms, bytesOnDisk: nat, reserved: nat)
    ensures terms == Terms(100, None, 1) && !Affordable(terms, Kept(terms, 3))
    ensures bytesOnDisk == PartAfter(terms, 3, Refused(true)) == 3 > reserved
  {
    var budget := new Budget(10);
    var other := budget.Reserve(9);
    var reservation := budget.Reserve(0);
    var download := new Download(100, None, reservation.value, 3);
    terms := download.CurrentTerms();
    var attempt := download.DownloadOnce(Refused(true));
    return terms, download.part, reservation.value.amount;
  }
}
