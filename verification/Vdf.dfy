/** Valve's text format for Steam metadata: the tokenizer, the object parser, and every text they read back. */
module Vdf {
  import opened Common

  const MAX_DEPTH := 64

  datatype VdfError = UnterminatedString | NestedTooDeep

  datatype Token = OpenBrace | CloseBrace | Word(value: string)

  datatype Value = Scalar(text: string) | Object(fields: seq<Field>)

  /** Objects keep their keys in the order of first insertion. */
  datatype Field = Field(key: string, value: Value)

  /** Case folding of one UTF-16 unit. */
  type Fold = char -> char

  datatype Parsed = Parsed(fields: seq<Field>, rest: seq<Token>)

  datatype QuotedText = QuotedText(raw: string, rest: string)

  /** What .NET calls white space. */
  predicate WhiteSpace(c: char) {
    var code := c as int;
    || 0x09 <= code <= 0x0D || code ==
        0x20 || code == 0x85 || code == 0xA0 || code == 0x1680 || 0x2000 <= code <= 0x200A
    || code == 0x2028 || code == 0x2029 || code == 0x202F || code == 0x205F || code == 0x3000
  }

  /** The twenty-five characters that .NET calls white space. */
  lemma WhiteSpaceListed(c: char)
    ensures WhiteSpace(c) <==>
              c as int in {9, 10, 11, 12, 13, 32, 133, 160, 5760, 8192, 8193, 8194, 8195, 8196, 8197, 8198, 8199, 8200,
                           8201, 8202, 8232, 8233, 8239, 8287, 12288}
  {
  }

  predicate Brace(c: char) {
    c == '{' || c == '}'
  }

  predicate StartsComment(text: string) {
    |text| > 1 && text[0] == '/' && text[1] == '/'
  }

  // What the tokenizer computes.

  function AfterLine(text: string): (rest: string)
    ensures |rest| <= |text|
  {
    if text == [] || text[0] == '\n' then text else AfterLine(text[1..])
  }

  function QuotedFrom(text: string): (r: Option<QuotedText>)
    ensures r.Some? ==> |r.value.rest| < |text|
  {
    if text == [] then None
    else if text[0] == '"' then Some(QuotedText("", text[1..]))
    else if text[0] == '\\' && |text| > 1 then AddRaw(text[..2], QuotedFrom(text[2..]))
    else AddRaw(text[..1], QuotedFrom(text[1..]))
  }

  function AddRaw(raw: string, r: Option<QuotedText>): Option<QuotedText> {
    match r
    case None => None
    case Some(quoted) => Some(QuotedText(raw + quoted.raw, quoted.rest))
  }

  function WordLength(text: string): (n: nat)
    ensures n <= |text|
    ensures text != [] && !WhiteSpace(text[0]) && !Brace(text[0]) ==> n > 0
  {
    if text == [] || WhiteSpace(text[0]) || Brace(text[0]) then 0 else 1 + WordLength(text[1..])
  }

  function Meaning(escaped: char): char {
    match escaped
    case 'n' => '\n'
    case 'r' => '\r'
    case 't' => '\t'
    case _ => escaped
  }

  function Unescape(value: string): string {
    if value == [] then []
    else if value[0] != '\\' || |value| == 1 then [value[0]] + Unescape(value[1..])
    else [Meaning(value[1])] + Unescape(value[2..])
  }

  function AddTokens(tokens: seq<Token>, r: Option<seq<Token>>): Option<seq<Token>> {
    match r
    case None => None
    case Some(more) => Some(tokens + more)
  }

  function Tokens(text: string): Option<seq<Token>>
    decreases |text|
  {
    if text == [] then Some([])
    else if WhiteSpace(text[0]) then Tokens(text[1..])
    else if StartsComment(text) then Tokens(AfterLine(text[2..]))
    else if text[0] == '{' then AddTokens([OpenBrace], Tokens(text[1..]))
    else if text[0] == '}' then AddTokens([CloseBrace], Tokens(text[1..]))
    else if text[0] == '"' then
      match QuotedFrom(text[1..])
      case None => None
      case Some(quoted) => AddTokens([Word(Unescape(quoted.raw))], Tokens(quoted.rest))
    else
      var n := WordLength(text);
      AddTokens([Word(text[..n])], Tokens(text[n..]))
  }

  // What the object parser computes.

  predicate SameKey(fold: Fold, a: string, b: string) {
    |a| == |b| && forall i | 0 <= i < |a| :: fold(a[i]) == fold(b[i])
  }

  function Find(fold: Fold, fields: seq<Field>, key: string): (k: nat)
    ensures k <= |fields|
    ensures k < |fields| ==> SameKey(fold, fields[k].key, key)
    ensures forall i | 0 <= i < k :: !SameKey(fold, fields[i].key, key)
  {
    if fields == [] || SameKey(fold, fields[0].key, key) then 0 else 1 + Find(fold, fields[1..], key)
  }

  /** Assignment through the indexer of a dictionary that ignores case: an existing key keeps its spelling. */
  function Assign(fold: Fold, fields: seq<Field>, key: string, value: Value): seq<Field> {
    var k := Find(fold, fields, key);
    if k < |fields| then fields[k := Field(fields[k].key, value)] else fields + [Field(key, value)]
  }

  function ParseObject(fold: Fold, tokens: seq<Token>, target: seq<Field>, depth: nat): (r: Option<Parsed>)
    ensures r.Some? ==> |r.value.rest| <= |tokens|
    decreases |tokens|
  {
    if depth > MAX_DEPTH then None
    else if tokens == [] then Some(Parsed(target, []))
    else
      match tokens[0]
      case CloseBrace => Some(Parsed(target, tokens[1..]))
      case OpenBrace => ParseObject(fold, tokens[1..], target, depth)
      case Word(key) =>
        if |tokens| == 1 then Some(Parsed(target, []))
        else
          match tokens[1]
          case CloseBrace => Some(Parsed(target, tokens[2..]))
          case Word(text) => ParseObject(fold, tokens[2..], Assign(fold, target, key, Scalar(text)), depth)
          case OpenBrace =>
            match ParseObject(fold, tokens[2..], [], depth + 1)
            case None => None
            case Some(child) => ParseObject(fold, child.rest, Assign(fold, target, key, Object(child.fields)), depth)
  }

  function ParseText(fold: Fold, text: string): Result<seq<Field>, VdfError> {
    match Tokens(text)
    case None => Err(UnterminatedString)
    case Some(tokens) =>
      match ParseObject(fold, tokens, [], 0)
      case None => Err(NestedTooDeep)
      case Some(parsed) => Ok(parsed.fields)
  }

  // The loops.

  method UnescapeVdf(value: string) returns (builder: string)
    ensures builder == Unescape(value)
  {
    hide Unescape, Meaning;
    builder := [];
    var index := 0;
    assert value[0..] == value;
    while index < |value|
      invariant index <= |value| && Unescape(value) == builder + Unescape(value[index..])
    {
      ghost var rest := value[index..];
      UnescapeStep(rest);
      if value[index] != '\\' || index + 1 >= |value| {
        assert rest[1..] == value[index + 1..];
        MovesOver(builder, value[index], Unescape(value[index + 1..]));
        builder := builder + [value[index]];
        index := index + 1;
        continue;
      }
      assert rest[2..] == value[index + 2..];
      index := index + 1;
      MovesOver(builder, Meaning(value[index]), Unescape(value[index + 1..]));
      builder := builder + [Meaning(value[index])];
      index := index + 1;
    }
    UnescapeStep(value[index..]);
  }

  lemma MovesOver(before: string, c: char, after: string)
    ensures before + ([c] + after) == before + [c] + after
  {
  }

  lemma UnescapeStep(value: string)
    ensures Unescape(value) ==
      if value == [] then []
      else if value[0] != '\\' || |value| == 1 then [value[0]] + Unescape(value[1..])
      else [Meaning(value[1])] + Unescape(value[2..])
  {
  }

  /** `tokens` are the tokens of the text before `index`. */
  ghost predicate ReadUpTo(text: string, tokens: seq<Token>, index: nat) {
    index <= |text| && Tokens(text) == AddTokens(tokens, Tokens(text[index..]))
  }

  lemma ReadNothing(text: string)
    ensures ReadUpTo(text, [], 0)
  {
    assert text[0..] == text;
    if Tokens(text).Some? {
      assert [] + Tokens(text).value == Tokens(text).value;
    }
  }

  lemma ReadMore(text: string, tokens: seq<Token>, index: nat, more: seq<Token>, next: nat)
    requires ReadUpTo(text, tokens, index) && index <= next <= |text|
    requires Tokens(text[index..]) == AddTokens(more, Tokens(text[next..]))
    ensures ReadUpTo(text, tokens + more, next)
  {
    if Tokens(text[next..]).Some? {
      assert tokens + (more + Tokens(text[next..]).value) == tokens + more + Tokens(text[next..]).value;
    }
  }

  lemma ReadOver(text: string, tokens: seq<Token>, index: nat, next: nat)
    requires ReadUpTo(text, tokens, index) && index <= next <= |text| && Tokens(text[index..]) == Tokens(text[next..])
    ensures ReadUpTo(text, tokens, next)
  {
  }

  lemma ReadAll(text: string, tokens: seq<Token>)
    requires ReadUpTo(text, tokens, |text|)
    ensures Tokens(text) == Some(tokens)
  {
    assert text[|text|..] == [] && tokens + [] == tokens;
  }

  lemma AddRawTwice(first: string, second: string, r: Option<QuotedText>)
    ensures AddRaw(first, AddRaw(second, r)) == AddRaw(first + second, r)
  {
    if r.Some? {
      assert first + (second + r.value.raw) == first + second + r.value.raw;
    }
  }

  lemma AddNoRaw(r: Option<QuotedText>)
    ensures AddRaw([], r) == r
  {
    if r.Some? {
      assert [] + r.value.raw == r.value.raw;
    }
  }

  /** The quoted branch: the characters up to the closing quote, escapes still in place. */
  method ReadQuoted(text: string, start: nat) returns (closed: bool, value: string, index: nat)
    requires start <= |text|
    ensures start <= index <= |text| && (closed ==> start < index)
    ensures QuotedFrom(text[start..]) == if closed then Some(QuotedText(value, text[index..])) else None
  {
    hide AddRaw, QuotedFrom;
    closed, value, index := false, "", start;
    ghost var quoted := QuotedFrom(text[start..]);
    AddNoRaw(quoted);
    while index < |text|
      invariant start <= index <= |text| && !closed
      invariant quoted == AddRaw(value, QuotedFrom(text[index..]))
    {
      var character := text[index];
      ghost var at := text[index..];
      QuotedStep(at);
      assert at[1..] == text[index + 1..] && at[..1] == [character];
      index := index + 1;
      if character == '"' {
        closed := true;
        AddedToEmpty(value, text[index..]);
        return;
      }
      if character == '\\' && index < |text| {
        assert at[2..] == text[index + 1..] && at[..2] == [character] + [text[index]];
        AddRawTwice(value, [character] + [text[index]], QuotedFrom(text[index + 1..]));
        value := value + ([character] + [text[index]]);
        index := index + 1;
      } else {
        AddRawTwice(value, [character], QuotedFrom(text[index..]));
        value := value + [character];
      }
    }
    NothingQuoted(text[index..], value);
  }

  lemma AddedToEmpty(value: string, rest: string)
    ensures AddRaw(value, Some(QuotedText("", rest))) == Some(QuotedText(value, rest))
  {
    assert value + "" == value;
  }

  /** The comment branch: everything up to the end of the line. */
  method SkipLine(text: string, start: nat) returns (index: nat)
    requires start <= |text|
    ensures start <= index <= |text| && AfterLine(text[start..]) == text[index..]
  {
    hide AfterLine;
    index := start;
    while index < |text| && text[index] != '\n'
      invariant start <= index <= |text| && AfterLine(text[start..]) == AfterLine(text[index..])
    {
      LineStep(text[index..]);
      assert text[index..][1..] == text[index + 1..];
      index := index + 1;
    }
    LineEnds(text[index..]);
  }

  /** The branch of bare words: everything up to white space or a brace. */
  method SkipWord(text: string, start: nat) returns (index: nat)
    requires start <= |text|
    ensures start <= index <= |text| && index - start == WordLength(text[start..])
  {
    hide WordLength, WhiteSpace;
    index := start;
    while index < |text| && !WhiteSpace(text[index]) && !Brace(text[index])
      invariant start <= index <= |text| && WordLength(text[start..]) == index - start + WordLength(text[index..])
    {
      LetterStep(text[index..]);
      assert text[index..][1..] == text[index + 1..];
      index := index + 1;
    }
    WordEnds(text[index..]);
  }

  /** Terminates on every text, and fails only on a quote that is never closed. */
  method TokenizeVdf(text: string) returns (r: Option<seq<Token>>)
    ensures r == Tokens(text)
  {
    hide ReadUpTo, Tokens, AddTokens, Unescape, QuotedFrom, WhiteSpace, WordLength, AfterLine;
    var tokens: seq<Token> := [];
    var index := 0;
    ReadNothing(text);
    while index < |text|
      invariant index <= |text| && ReadUpTo(text, tokens, index)
    {
      while index < |text| && WhiteSpace(text[index])
        invariant index <= |text| && ReadUpTo(text, tokens, index)
      {
        SpaceStep(text[index..]);
        assert text[index..][1..] == text[index + 1..];
        ReadOver(text, tokens, index, index + 1);
        index := index + 1;
      }
      if index >= |text| {
        break;
      }
      ghost var start := index;
      ghost var at := text[start..];
      if text[index] == '/' && index + 1 < |text| && text[index + 1] == '/' {
        CommentStep(at);
        assert at[2..] == text[index + 2..];
        index := SkipLine(text, index + 2);
        ReadOver(text, tokens, start, index);
        continue;
      }
      if text[index] == '{' {
        BraceStep(at);
        assert at[1..] == text[index + 1..];
        ReadMore(text, tokens, index, [OpenBrace], index + 1);
        tokens := tokens + [OpenBrace];
        index := index + 1;
        continue;
      }
      if text[index] == '}' {
        BraceStep(at);
        assert at[1..] == text[index + 1..];
        ReadMore(text, tokens, index, [CloseBrace], index + 1);
        tokens := tokens + [CloseBrace];
        index := index + 1;
        continue;
      }
      if text[index] == '"' {
        QuoteStep(at);
        assert at[1..] == text[index + 1..];
        var closed, value;
        closed, value, index := ReadQuoted(text, index + 1);
        if !closed {
          NoneReadsNone(text, tokens, start);
          return None;
        }
        var unescaped := UnescapeVdf(value);
        ReadMore(text, tokens, start, [Word(unescaped)], index);
        tokens := tokens + [Word(unescaped)];
        continue;
      }
      var first := index;
      WordStep(at);
      index := SkipWord(text, first);
      if index > first {
        assert at[..index - first] == text[first..index] && at[index - first..] == text[index..];
        ReadMore(text, tokens, first, [Word(text[first..index])], index);
        tokens := tokens + [Word(text[first..index])];
      }
    }
    ReadAll(text, tokens);
    return Some(tokens);
  }

  lemma NoneReadsNone(text: string, tokens: seq<Token>, index: nat)
    requires ReadUpTo(text, tokens, index) && Tokens(text[index..]).None?
    ensures Tokens(text) == None
  {
  }

  lemma LineStep(text: string)
    requires text != [] && text[0] != '\n'
    ensures AfterLine(text) == AfterLine(text[1..])
  {
  }

  lemma LineEnds(text: string)
    requires text == [] || text[0] == '\n'
    ensures AfterLine(text) == text
  {
  }

  lemma LetterStep(text: string)
    requires text != [] && !WhiteSpace(text[0]) && !Brace(text[0])
    ensures WordLength(text) == 1 + WordLength(text[1..])
  {
  }

  lemma WordEnds(text: string)
    requires text == [] || WhiteSpace(text[0]) || Brace(text[0])
    ensures WordLength(text) == 0
  {
  }

  lemma SpaceStep(text: string)
    requires text != [] && WhiteSpace(text[0])
    ensures Tokens(text) == Tokens(text[1..])
  {
  }

  lemma CommentStep(text: string)
    requires StartsComment(text)
    ensures Tokens(text) == Tokens(AfterLine(text[2..]))
  {
  }

  lemma BraceStep(text: string)
    requires text != [] && Brace(text[0])
    ensures Tokens(text) == AddTokens([if text[0] == '{' then OpenBrace else CloseBrace], Tokens(text[1..]))
  {
  }

  lemma QuoteStep(text: string)
    requires text != [] && text[0] == '"'
    ensures QuotedFrom(text[1..]).None? ==> Tokens(text) == None
    ensures QuotedFrom(text[1..]).Some? ==>
              var quoted := QuotedFrom(text[1..]).value;
              Tokens(text) == AddTokens([Word(Unescape(quoted.raw))], Tokens(quoted.rest))
  {
  }

  predicate StartsWord(text: string) {
    text != [] && !WhiteSpace(text[0]) && !Brace(text[0]) && text[0] != '"' && !StartsComment(text)
  }

  lemma WordStep(text: string)
    requires StartsWord(text)
    ensures WordLength(text) > 0
    ensures Tokens(text) == AddTokens([Word(text[..WordLength(text)])], Tokens(text[WordLength(text)..]))
  {
  }

  lemma NothingQuoted(text: string, value: string)
    requires text == []
    ensures AddRaw(value, QuotedFrom(text)) == None
  {
  }

  lemma QuotedStep(text: string)
    requires text != []
    ensures QuotedFrom(text) ==
      if text[0] == '"' then Some(QuotedText("", text[1..]))
      else if text[0] == '\\' && |text| > 1 then AddRaw(text[..2], QuotedFrom(text[2..]))
      else AddRaw(text[..1], QuotedFrom(text[1..]))
  {
  }

  /** Fills `target` from the tokens at `start`, up to the brace that closes it or to the last token. */
  method ParseVdfObject(fold: Fold, tokens: seq<Token>, start: nat, target: seq<Field>, depth: nat)
    returns (thrown: bool, index: nat, fields: seq<Field>)
    requires start <= |tokens|
    ensures start <= index <= |tokens|
    ensures ParseObject(fold, tokens[start..], target, depth) ==
              if thrown then None else Some(Parsed(fields, tokens[index..]))
    decreases |tokens| - start
  {
    hide Assign, ParseObject;
    thrown, index, fields := depth > MAX_DEPTH, start, target;
    ParseStep(fold, tokens[start..], target, depth);
    if thrown {
      return;
    }
    while index < |tokens|
      invariant start <= index <= |tokens|
      invariant ParseObject(fold, tokens[start..], target, depth) == ParseObject(fold, tokens[index..], fields, depth)
    {
      ghost var at := tokens[index..];
      ParseStep(fold, at, fields, depth);
      var key := tokens[index];
      index := index + 1;
      assert at[1..] == tokens[index..];
      if key.CloseBrace? {
        return;
      }
      if key.OpenBrace? {
        continue;
      }
      if index >= |tokens| {
        assert tokens[index..] == [];
        return;
      }
      var value := tokens[index];
      index := index + 1;
      assert at[2..] == tokens[index..] && at[1] == value;
      if value.CloseBrace? {
        return;
      }
      if value.OpenBrace? {
        var child;
        thrown, index, child := ParseVdfObject(fold, tokens, index, [], depth + 1);
        if thrown {
          return;
        }
        fields := Assign(fold, fields, key.value, Object(child));
      } else {
        fields := Assign(fold, fields, key.value, Scalar(value.value));
      }
    }
    assert tokens[index..] == [];
    ParseStep(fold, [], fields, depth);
  }

  /** One turn of the loop. */
  lemma ParseStep(fold: Fold, tokens: seq<Token>, target: seq<Field>, depth: nat)
    ensures depth > MAX_DEPTH ==> ParseObject(fold, tokens, target, depth) == None
    ensures depth <= MAX_DEPTH ==>
      ParseObject(fold, tokens, target, depth) ==
        if tokens == [] || (|tokens| == 1 && tokens[0].Word?) then Some(Parsed(target, []))
        else if tokens[0].CloseBrace? then Some(Parsed(target, tokens[1..]))
        else if tokens[0].OpenBrace? then ParseObject(fold, tokens[1..], target, depth)
        else if tokens[1].CloseBrace? then Some(Parsed(target, tokens[2..]))
        else if tokens[1].Word? then
          ParseObject(fold, tokens[2..], Assign(fold, target, tokens[0].value, Scalar(tokens[1].value)), depth)
        else
          match ParseObject(fold, tokens[2..], [], depth + 1)
          case None => None
          case Some(child) => ParseObject(fold, child.rest, Assign(fold, target, tokens[0].value, Object(child.fields)),
                                          depth)
  {
    hide Assign;
  }

  method ParseVdf(fold: Fold, text: string) returns (r: Result<seq<Field>, VdfError>)
    ensures r == ParseText(fold, text)
  {
    var tokens := TokenizeVdf(text);
    if tokens.None? {
      return Err(UnterminatedString);
    }
    var thrown, index, root := ParseVdfObject(fold, tokens.value, 0, [], 0);
    assert tokens.value[0..] == tokens.value;
    return if thrown then Err(NestedTooDeep) else Ok(root);
  }

  // Texts that spell a tree.

  /** One character inside quotes: itself, or a backslash and a letter. */
  datatype Unit = Plain(c: char) | Escaped(c: char)

  /** A piece of a text; a bare word and a comment include the character that ends them. */
  datatype Lexeme =
    | Gap(spaces: string)
    | Comment(line: string)
    | Open
    | Close
    | Quoted(units: seq<Unit>)
    | Bare(word: string, end: char)

  ghost predicate UnitOk(u: Unit) {
    u.Plain? ==> u.c != '"' && u.c != '\\'
  }

  ghost predicate LexemeOk(l: Lexeme) {
    match l
    case Gap(spaces) => forall c | c in spaces :: WhiteSpace(c)
    case Comment(line) => '\n' !in line
    case Open => true
    case Close => true
    case Quoted(units) => forall u | u in units :: UnitOk(u)
    case Bare(word, end) => StartsWord(word) && WhiteSpace(end) && forall c | c in word :: !WhiteSpace(c) && !Brace(c)
  }

  ghost function SpellOne(u: Unit): string {
    if u.Plain? then [u.c] else ['\\', u.c]
  }

  ghost function Spelling(units: seq<Unit>): string {
    if units == [] then [] else SpellOne(units[0]) + Spelling(units[1..])
  }

  /** A backslash and n, r or t stand for a line feed, a carriage return and a tab; before any other it is dropped. */
  ghost function SpelledOne(u: Unit): char {
    if u == Escaped('n') then '\n' else if u == Escaped('r') then '\r' else if u == Escaped('t') then '\t' else u.c
  }

  ghost function Spelled(units: seq<Unit>): string {
    if units == [] then [] else [SpelledOne(units[0])] + Spelled(units[1..])
  }

  ghost function RenderOne(l: Lexeme): string {
    match l
    case Gap(spaces) => spaces
    case Comment(line) => "//" + line + "\n"
    case Open => "{"
    case Close => "}"
    case Quoted(units) => "\"" + Spelling(units) + "\""
    case Bare(word, end) => word + [end]
  }

  ghost function TokensOfOne(l: Lexeme): seq<Token> {
    match l
    case Gap(_) => []
    case Comment(_) => []
    case Open => [OpenBrace]
    case Close => [CloseBrace]
    case Quoted(units) => [Word(Spelled(units))]
    case Bare(word, _) => [Word(word)]
  }

  ghost function Render(lexemes: seq<Lexeme>): string {
    if lexemes == [] then [] else RenderOne(lexemes[0]) + Render(lexemes[1..])
  }

  ghost function TokensOf(lexemes: seq<Lexeme>): seq<Token> {
    if lexemes == [] then [] else TokensOfOne(lexemes[0]) + TokensOf(lexemes[1..])
  }

  lemma {:induction false} GapIsSkipped(spaces: string, rest: string)
    requires forall c | c in spaces :: WhiteSpace(c)
    ensures Tokens(spaces + rest) == Tokens(rest)
  {
    hide WhiteSpace;
    if spaces == [] {
      assert spaces + rest == rest;
    } else {
      assert (spaces + rest)[1..] == spaces[1..] + rest;
      SpaceStep(spaces + rest);
      GapIsSkipped(spaces[1..], rest);
    }
  }

  lemma {:induction false} LineIsSkipped(line: string, rest: string)
    requires '\n' !in line
    ensures AfterLine(line + "\n" + rest) == "\n" + rest
  {
    if line == [] {
      assert line + "\n" + rest == "\n" + rest;
    } else {
      assert (line + "\n" + rest)[1..] == line[1..] + "\n" + rest;
      LineIsSkipped(line[1..], rest);
    }
  }

  lemma {:induction false} SpellingIsQuoted(units: seq<Unit>, rest: string)
    requires forall u | u in units :: UnitOk(u)
    ensures QuotedFrom(Spelling(units) + "\"" + rest) == Some(QuotedText(Spelling(units), rest))
  {
    hide QuotedFrom;
    var text := Spelling(units) + "\"" + rest;
    QuotedStep(text);
    if units == [] {
      assert text[1..] == rest;
    } else {
      var first := SpellOne(units[0]);
      SpellingIsQuoted(units[1..], rest);
      assert UnitOk(units[0]);
      assert text[..|first|] == first && text[|first|..] == Spelling(units[1..]) + "\"" + rest;
    }
  }

  lemma {:induction false} SpellingMeans(units: seq<Unit>)
    requires forall u | u in units :: UnitOk(u)
    ensures Unescape(Spelling(units)) == Spelled(units)
  {
    if units == [] {
    } else {
      SpellingMeans(units[1..]);
      assert UnitOk(units[0]);
      assert Spelling(units)[|SpellOne(units[0])|..] == Spelling(units[1..]);
    }
  }

  lemma {:induction false} WordIsWhole(word: string, end: char, rest: string)
    requires WhiteSpace(end) && forall c | c in word :: !WhiteSpace(c) && !Brace(c)
    ensures WordLength(word + [end] + rest) == |word|
  {
    hide WhiteSpace;
    if word == [] {
    } else {
      assert (word + [end] + rest)[1..] == word[1..] + [end] + rest;
      WordIsWhole(word[1..], end, rest);
    }
  }

  lemma OneLexeme(l: Lexeme, rest: string)
    requires LexemeOk(l)
    ensures Tokens(RenderOne(l) + rest) == AddTokens(TokensOfOne(l), Tokens(rest))
  {
    hide Tokens, WhiteSpace, Unescape, QuotedFrom, Spelling, Spelled, AddTokens;
    var text := RenderOne(l) + rest;
    match l
    case Gap(spaces) => GapIsSkipped(spaces, rest); NothingAdded(Tokens(rest));
    case Comment(line) => CommentIsSkipped(line, rest); NothingAdded(Tokens(rest));
    case Open => BraceStep(text); assert text[1..] == rest;
    case Close => BraceStep(text); assert text[1..] == rest;
    case Quoted(units) =>
      assert text[1..] == Spelling(units) + "\"" + rest;
      SpellingIsQuoted(units, rest);
      SpellingMeans(units);
      QuoteStep(text);
    case Bare(word, end) => WordIsRead(word, end, rest);
  }

  lemma CommentIsSkipped(line: string, rest: string)
    requires '\n' !in line
    ensures Tokens("//" + line + "\n" + rest) == Tokens(rest)
  {
    hide Tokens, WhiteSpace;
    var text := "//" + line + "\n" + rest;
    CommentStep(text);
    assert text[2..] == line + "\n" + rest;
    LineIsSkipped(line, rest);
    NewLineIsSpace();
    SpaceStep("\n" + rest);
    assert ("\n" + rest)[1..] == rest;
  }

  lemma WordIsRead(word: string, end: char, rest: string)
    requires LexemeOk(Bare(word, end))
    ensures Tokens(word + [end] + rest) == AddTokens([Word(word)], Tokens(rest))
  {
    hide Tokens, WhiteSpace, AddTokens;
    var text := word + [end] + rest;
    SlashIsNoSpace(end);
    WordIsWhole(word, end, rest);
    WordStep(text);
    assert text[..|word|] == word && text[|word|..] == [end] + rest;
    SpaceStep([end] + rest);
    assert ([end] + rest)[1..] == rest;
  }

  lemma NothingAdded(r: Option<seq<Token>>)
    ensures AddTokens([], r) == r
  {
    if r.Some? {
      assert [] + r.value == r.value;
    }
  }

  lemma NewLineIsSpace()
    ensures WhiteSpace('\n')
  {
  }

  lemma SlashIsNoSpace(c: char)
    ensures WhiteSpace(c) ==> c != '/'
  {
  }

  /** The tokens of any text put together from gaps, comments, braces, quoted strings and bare words. */
  lemma {:induction false} TokensOfText(lexemes: seq<Lexeme>)
    requires forall l | l in lexemes :: LexemeOk(l)
    ensures Tokens(Render(lexemes)) == Some(TokensOf(lexemes))
  {
    hide LexemeOk;
    if lexemes == [] {
    } else {
      TokensOfText(lexemes[1..]);
      OneLexeme(lexemes[0], Render(lexemes[1..]));
    }
  }

  ghost function TreeTokens(fields: seq<Field>): seq<Token> {
    if fields == [] then [] else FieldTokens(fields[0]) + TreeTokens(fields[1..])
  }

  ghost function FieldTokens(field: Field): seq<Token> {
    match field.value
    case Scalar(text) => [Word(field.key), Word(text)]
    case Object(children) => [Word(field.key), OpenBrace] + TreeTokens(children) + [CloseBrace]
  }

  ghost function Depth(fields: seq<Field>): nat {
    if fields == [] then 0 else
      Max(Levels(fields[0].value), Depth(fields[1..]))
  }

  ghost predicate WellKeyed(fold: Fold, fields: seq<Field>) {
    && KeysDiffer(fold, fields)
    && forall k | 0 <= k < |fields| && fields[k].value.Object? :: WellKeyed(fold, fields[k].value.fields)
  }

  ghost predicate KeysDiffer(fold: Fold, fields: seq<Field>) {
    forall i, j | 0 <= i < j < |fields| :: !SameKey(fold, fields[i].key, fields[j].key)
  }

  /** Assigning every field in turn, children first into objects of their own. */
  ghost function Built(fold: Fold, target: seq<Field>, fields: seq<Field>): seq<Field>
    decreases fields
  {
    if fields == [] then target else
      Built(fold, Assign(fold, target, fields[0].key, BuiltValue(fold, fields[0].value)), fields[1..])
  }

  ghost function BuiltValue(fold: Fold, value: Value): Value
    decreases value
  {
    match value
    case Scalar(_) => value
    case Object(children) => Object(Built(fold, [], children))
  }

  /** What the parser makes of the tokens of any tree, deep or shallow, with or without repeated keys. */
  lemma {:induction false} ParsesTree(fold: Fold, fields: seq<Field>, rest: seq<Token>, target: seq<Field>, depth: nat)
    ensures ParseObject(fold, TreeTokens(fields) + rest, target, depth) ==
            if depth + Depth(fields) > MAX_DEPTH then None else ParseObject(fold, rest, Built(fold, target, fields),
                    depth)
    decreases fields
  {
    hide ParseObject, FieldTokens, BuiltValue, Assign;
    if fields == [] {
      assert TreeTokens(fields) + rest == rest;
      TooDeepFails(fold, rest, target, depth);
    } else {
      var after := TreeTokens(fields[1..]) + rest;
      assert TreeTokens(fields) + rest == FieldTokens(fields[0]) + after;
      ParsesField(fold, fields[0], after, target, depth);
      ParsesTree(fold, fields[1..], rest, Assign(fold, target, fields[0].key, BuiltValue(fold, fields[0].value)),
                 depth);
    }
  }

  lemma TooDeepFails(fold: Fold, tokens: seq<Token>, target: seq<Field>, depth: nat)
    ensures depth > MAX_DEPTH ==> ParseObject(fold, tokens, target, depth) == None
  {
  }

  ghost function Levels(value: Value): nat {
    match value case Scalar(_) => 0 case Object(children) => 1 + Depth(children)
  }

  lemma {:induction false} ParsesField(fold: Fold, field: Field, after: seq<Token>, target: seq<Field>, depth: nat)
    ensures ParseObject(fold, FieldTokens(field) + after, target, depth) ==
            if depth + Levels(field.value) > MAX_DEPTH then None
            else ParseObject(fold, after, Assign(fold, target, field.key, BuiltValue(fold, field.value)), depth)
    decreases field
  {
    hide Assign;
    match field.value
    case Scalar(text) =>
      assert (FieldTokens(field) + after)[2..] == after;
    case Object(children) =>
      assert (FieldTokens(field) + after)[2..] == TreeTokens(children) + ([CloseBrace] + after);
      ParsesTree(fold, children, [CloseBrace] + after, [], depth + 1);
      assert ([CloseBrace] + after)[1..] == after;
  }

  lemma {:induction false} BuiltIsWellKeyed(fold: Fold, target: seq<Field>, fields: seq<Field>)
    requires WellKeyed(fold, target)
    ensures WellKeyed(fold, Built(fold, target, fields))
    decreases fields
  {
    if fields == [] {
    } else {
      var value := BuiltValue(fold, fields[0].value);
      if fields[0].value.Object? {
        BuiltIsWellKeyed(fold, [], fields[0].value.fields);
      }
      var next := Assign(fold, target, fields[0].key, value);
      assert WellKeyed(fold, next);
      BuiltIsWellKeyed(fold, next, fields[1..]);
    }
  }

  lemma NewKeyIsAppended(fold: Fold, target: seq<Field>, fields: seq<Field>)
    requires KeysDiffer(fold, target + fields) && fields != []
    ensures Assign(fold, target, fields[0].key, fields[0].value) == target + [fields[0]]
  {
    var all := target + fields;
    assert all[|target|] == fields[0];
    forall k | 0 <= k < |target| ensures !SameKey(fold, target[k].key, fields[0].key) {
      assert all[k] == target[k];
    }
  }

  lemma {:induction false} BuiltKeepsFields(fold: Fold, target: seq<Field>, fields: seq<Field>)
    requires WellKeyed(fold, target + fields)
    ensures Built(fold, target, fields) == target + fields
    decreases fields
  {
    hide Assign, KeysDiffer, SameKey;
    if fields == [] {
      assert target + fields == target;
    } else {
      var all := target + fields;
      assert all[|target|] == fields[0];
      if fields[0].value.Object? {
        assert all[|target|].value.Object?;
        assert [] + fields[0].value.fields == fields[0].value.fields;
        BuiltKeepsFields(fold, [], fields[0].value.fields);
      }
      NewKeyIsAppended(fold, target, fields);
      assert target + [fields[0]] + fields[1..] == all;
      BuiltKeepsFields(fold, target + [fields[0]], fields[1..]);
    }
  }

  /**
   * A text that spells a tree is read back as that tree exactly when the tree is at most 64 levels deep and no
   * object in it holds two keys that differ only in case. A deeper tree is refused.
   */
  lemma ReadsBackIff(fold: Fold, lexemes: seq<Lexeme>, tree: seq<Field>)
    requires (forall l | l in lexemes :: LexemeOk(l)) && TokensOf(lexemes) == TreeTokens(tree)
    ensures ParseText(fold, Render(lexemes)) == Ok(tree) <==> Depth(tree) <= 64 && WellKeyed(fold, tree)
    ensures ParseText(fold, Render(lexemes)) == Err(NestedTooDeep) <==> Depth(tree) > 64
  {
    TokensOfText(lexemes);
    assert TreeTokens(tree) + [] == TreeTokens(tree);
    ParsesTree(fold, tree, [], [], 0);
    BuiltIsWellKeyed(fold, [], tree);
    if WellKeyed(fold, tree) {
      assert [] + tree == tree;
      BuiltKeepsFields(fold, [], tree);
    }
  }

  // Repeated keys.

  /** The keys of an object, each in its first spelling and in the order in which they first come. */
  ghost function FirstSpellings(fold: Fold, fields: seq<Field>): seq<string> {
    if fields == [] then [] else
      var earlier, last := FirstSpellings(fold, fields[..|fields| - 1]), fields[|fields| - 1].key;
      if exists key | key in earlier :: SameKey(fold, key, last) then earlier else earlier + [last]
  }

  /** What the last of the fields with a key holds. */
  ghost function LastValue(fold: Fold, fields: seq<Field>, key: string): Option<Value> {
    if fields == [] then None else
      var last := fields[|fields| - 1];
      if SameKey(fold, last.key, key) then Some(last.value) else LastValue(fold, fields[..|fields| - 1], key)
  }

  lemma {:induction false} BuiltSplit(fold: Fold, target: seq<Field>, fields: seq<Field>, last: Field)
    ensures Built(fold, target, fields + [last]) ==
            Assign(fold, Built(fold, target, fields), last.key, BuiltValue(fold, last.value))
    decreases fields
  {
    hide Assign, BuiltValue;
    if fields == [] {
      assert fields + [last] == [last] && [last][1..] == [];
      assert Built(fold, target, [last]) ==
          Built(fold, Assign(fold, target, last.key, BuiltValue(fold, last.value)), []);
    } else {
      var next := Assign(fold, target, fields[0].key, BuiltValue(fold, fields[0].value));
      assert (fields + [last])[1..] == fields[1..] + [last];
      BuiltSplit(fold, next, fields[1..], last);
    }
  }

  /** The fields of an object are these keys with the last values that came with them. */
  ghost predicate HoldsLast(fold: Fold, built: seq<Field>, fields: seq<Field>) {
    var keys := FirstSpellings(fold, fields);
    && |built| == |keys|
    && forall k | 0 <= k < |keys| ::
         && built[k].key == keys[k] && LastValue(fold, fields, keys[k]).Some?
         && built[k].value == BuiltValue(fold, LastValue(fold, fields, keys[k]).value)
  }

  lemma LastOfMore(fold: Fold, shorter: seq<Field>, last: Field, key: string)
    ensures LastValue(fold, shorter + [last], key) ==
            if SameKey(fold, last.key, key) then Some(last.value) else LastValue(fold, shorter, key)
  {
    assert (shorter + [last])[..|shorter|] == shorter;
  }

  lemma KeysOfMore(fold: Fold, shorter: seq<Field>, last: Field)
    ensures var keys := FirstSpellings(fold, shorter);
            FirstSpellings(fold, shorter + [last]) ==
              if exists key | key in keys :: SameKey(fold, key, last.key) then keys else keys + [last.key]
  {
    assert (shorter + [last])[..|shorter|] == shorter;
  }

  lemma HoldsLastOfMore(fold: Fold, earlier: seq<Field>, shorter: seq<Field>, last: Field)
    requires HoldsLast(fold, earlier, shorter) && KeysDiffer(fold, earlier)
    ensures
      var built := Assign(fold, earlier, last.key, BuiltValue(fold, last.value));
      HoldsLast(fold, built, shorter + [last]) && KeysDiffer(fold, built)
  {
    hide BuiltValue, SameKey, LastValue, FirstSpellings;
    var keys, more := FirstSpellings(fold, shorter), shorter + [last];
    var at := Find(fold, earlier, last.key);
    var built := Assign(fold, earlier, last.key, BuiltValue(fold, last.value));
    KeysOfMore(fold, shorter, last);
    forall k | 0 <= k < |keys| ensures SameKey(fold, last.key, keys[k]) <==> k == at {
      SameKeyIsEquivalence(fold, earlier, last.key, k, at);
    }
    forall k | 0 <= k < |keys| ensures SameKey(fold, keys[k], last.key) <==> k == at {
      SameKeyIsEquivalence(fold, earlier, last.key, k, at);
    }
    SameKeyIsSymmetric(fold, last.key, last.key);
    assert (exists key | key in keys :: SameKey(fold, key, last.key)) <==> at < |keys| by {
      if at < |keys| {
        assert keys[at] in keys;
      }
    }
    forall k | 0 <= k < |built|
      ensures LastValue(fold, more, built[k].key).Some?
      ensures built[k].value == BuiltValue(fold, LastValue(fold, more, built[k].key).value)
    {
      LastOfMore(fold, shorter, last, built[k].key);
    }
  }

  /** Of two equal keys the first gives the place and the spelling, and the last gives the value. */
  lemma {:induction false} LastKeyWins(fold: Fold, fields: seq<Field>)
    ensures HoldsLast(fold, Built(fold, [], fields), fields) && KeysDiffer(fold, Built(fold, [], fields))
    decreases |fields|
  {
    hide Built, BuiltValue, Assign;
    if fields == [] {
      BuiltNothing(fold);
    } else {
      var shorter, last := fields[..|fields| - 1], fields[|fields| - 1];
      assert fields == shorter + [last];
      LastKeyWins(fold, shorter);
      BuiltSplit(fold, [], shorter, last);
      HoldsLastOfMore(fold, Built(fold, [], shorter), shorter, last);
    }
  }

  lemma BuiltNothing(fold: Fold)
    ensures Built(fold, [], []) == []
  {
  }

  lemma SameKeyIsSymmetric(fold: Fold, a: string, b: string)
    ensures SameKey(fold, a, a) && (SameKey(fold, a, b) <==> SameKey(fold, b, a))
  {
  }

  lemma SameKeyIsEquivalence(fold: Fold, fields: seq<Field>, key: string, k: nat, at: nat)
    requires k < |fields| && KeysDiffer(fold, fields) && at == Find(fold, fields, key)
    ensures SameKey(fold, key, fields[k].key) <==> k == at
    ensures SameKey(fold, fields[k].key, key) <==> k == at
  {
    if k < at {
      assert !SameKey(fold, fields[k].key, key);
    } else if at < k {
      assert !SameKey(fold, fields[at].key, fields[k].key);
    }
    SameKeyIsSymmetric(fold, key, fields[k].key);
  }

  /** What a text that spells any tree is read as, repeated keys included. */
  lemma ReadsRepeatedKeys(fold: Fold, lexemes: seq<Lexeme>, tree: seq<Field>)
    requires (forall l | l in lexemes :: LexemeOk(l)) && TokensOf(lexemes) == TreeTokens(tree) && Depth(tree) <= 64
    ensures ParseText(fold, Render(lexemes)).Ok? && HoldsLast(fold, ParseText(fold, Render(lexemes)).value, tree)
  {
    TokensOfText(lexemes);
    assert TreeTokens(tree) + [] == TreeTokens(tree);
    ParsesTree(fold, tree, [], [], 0);
    LastKeyWins(fold, tree);
  }

  // A printer: every string quoted, one field a line.

  ghost function Escape(s: string): (units: seq<Unit>)
    ensures forall u | u in units :: UnitOk(u)
    ensures Spelled(units) == s
  {
    if s == [] then [] else
      var first := if s[0] == '"' || s[0] == '\\' then Escaped(s[0]) else Plain(s[0]);
      assert ([first] + Escape(s[1..]))[1..] == Escape(s[1..]);
      [first] + Escape(s[1..])
  }

  ghost function PrintLexemes(fields: seq<Field>): seq<Lexeme> {
    if fields == [] then [] else FieldLexemes(fields[0]) + PrintLexemes(fields[1..])
  }

  ghost function FieldLexemes(field: Field): seq<Lexeme> {
    match field.value
    case Scalar(text) => [Quoted(Escape(field.key)), Gap("\t"), Quoted(Escape(text)), Gap("\n")]
    case Object(children) => [Quoted(Escape(field.key)), Gap("\n"), Open, Gap("\n")] + PrintLexemes(children) + [Close,
            Gap("\n")]
  }

  ghost function Print(tree: seq<Field>): string {
    Render(PrintLexemes(tree))
  }

  lemma TokensOfCons(l: Lexeme, rest: seq<Lexeme>)
    ensures TokensOf([l] + rest) == TokensOfOne(l) + TokensOf(rest)
  {
    assert ([l] + rest)[1..] == rest;
  }

  lemma {:induction false} TokensOfSplit(left: seq<Lexeme>, right: seq<Lexeme>)
    ensures TokensOf(left + right) == TokensOf(left) + TokensOf(right)
  {
    hide TokensOfOne;
    if left == [] {
      assert left + right == right;
    } else {
      assert left + right == [left[0]] + (left[1..] + right) && left == [left[0]] + left[1..];
      TokensOfCons(left[0], left[1..] + right);
      TokensOfCons(left[0], left[1..]);
      TokensOfSplit(left[1..], right);
    }
  }

  lemma {:induction false} PrintIsTree(fields: seq<Field>)
    ensures forall l | l in PrintLexemes(fields) :: LexemeOk(l)
    ensures TokensOf(PrintLexemes(fields)) == TreeTokens(fields)
    decreases fields
  {
    if fields == [] {
    } else {
      PrintIsTree(fields[1..]);
      FieldIsTree(fields[0]);
      TokensOfSplit(FieldLexemes(fields[0]), PrintLexemes(fields[1..]));
    }
  }

  lemma {:induction false} FieldIsTree(field: Field)
    ensures forall l | l in FieldLexemes(field) :: LexemeOk(l)
    ensures TokensOf(FieldLexemes(field)) == FieldTokens(field)
    decreases field
  {
    hide TokensOf, Escape, WhiteSpace, TreeTokens;
    TabIsSpace();
    match field.value
    case Scalar(text) =>
      TokensOfLine(Escape(field.key), Gap("\t"), Quoted(Escape(text)));
    case Object(children) =>
      PrintIsTree(children);
      var head := [Quoted(Escape(field.key)), Gap("\n"), Open, Gap("\n")];
      TokensOfLine(Escape(field.key), Gap("\n"), Open);
      TokensOfSplit(head + PrintLexemes(children), [Close, Gap("\n")]);
      TokensOfSplit(head, PrintLexemes(children));
      TokensOfClose();
  }

  lemma TabIsSpace()
    ensures WhiteSpace('\t') && WhiteSpace('\n')
  {
  }

  lemma TokensOfLine(key: seq<Unit>, gap: Lexeme, last: Lexeme)
    requires gap.Gap?
    ensures TokensOf([Quoted(key), gap, last, Gap("\n")]) == [Word(Spelled(key))] + TokensOfOne(last)
  {
    TokensOfCons(Gap("\n"), []);
    TokensOfCons(last, [Gap("\n")]);
    assert [last] + [Gap("\n")] == [last, Gap("\n")] && [Gap("\n")] + [] == [Gap("\n")];
    TokensOfCons(gap, [last, Gap("\n")]);
    assert [gap] + [last, Gap("\n")] == [gap, last, Gap("\n")];
    TokensOfCons(Quoted(key), [gap, last, Gap("\n")]);
    assert [Quoted(key)] + [gap, last, Gap("\n")] == [Quoted(key), gap, last, Gap("\n")];
  }

  lemma TokensOfClose()
    ensures TokensOf([Close, Gap("\n")]) == [CloseBrace]
  {
    TokensOfCons(Gap("\n"), []);
    assert [Gap("\n")] + [] == [Gap("\n")];
    TokensOfCons(Close, [Gap("\n")]);
    assert [Close] + [Gap("\n")] == [Close, Gap("\n")];
  }

  /** Printing any tree and parsing the text gives the tree back, exactly under the two conditions of the reader. */
  lemma PrintThenParse(fold: Fold, tree: seq<Field>)
    ensures ParseText(fold, Print(tree)) == Ok(tree) <==> Depth(tree) <= 64 && WellKeyed(fold, tree)
  {
    PrintIsTree(tree);
    ReadsBackIff(fold, PrintLexemes(tree), tree);
  }

  lemma {:induction false} DepthAtMost(fields: seq<Field>, levels: nat)
    ensures Depth(fields) <= levels <==> forall k | 0 <= k < |fields| :: Levels(fields[k].value) <= levels
  {
    if fields == [] {
    } else {
      DepthAtMost(fields[1..], levels);
      assert forall k | 0 < k < |fields| :: fields[k] == fields[1..][k - 1];
    }
  }

  lemma AssignKeepsShape(fold: Fold, fields: seq<Field>, key: string, value: Value, levels: nat)
    requires WellKeyed(fold, fields) && Depth(fields) <= levels
    requires Levels(value) <= levels && (value.Object? ==> WellKeyed(fold, value.fields))
    ensures WellKeyed(fold, Assign(fold, fields, key, value)) && Depth(Assign(fold, fields, key, value)) <= levels
  {
    hide Levels;
    DepthAtMost(fields, levels);
    DepthAtMost(Assign(fold, fields, key, value), levels);
  }

  lemma {:induction false} ParserKeepsShape(fold: Fold, tokens: seq<Token>, target: seq<Field>, depth: nat)
    requires depth + Depth(target) <= MAX_DEPTH && WellKeyed(fold, target)
    ensures var r := ParseObject(fold, tokens, target, depth);
            r.Some? ==> depth + Depth(r.value.fields) <= MAX_DEPTH && WellKeyed(fold, r.value.fields)
    decreases |tokens|
  {
    hide Depth, WellKeyed, Assign;
    EmptyShape(fold);
    if tokens != [] && tokens[0].OpenBrace? {
      ParserKeepsShape(fold, tokens[1..], target, depth);
    } else if |tokens| > 1 && tokens[0].Word? && !tokens[1].CloseBrace? {
      var key := tokens[0].value;
      if tokens[1].Word? {
        AssignKeepsShape(fold, target, key, Scalar(tokens[1].value), MAX_DEPTH - depth);
        ParserKeepsShape(fold, tokens[2..], Assign(fold, target, key, Scalar(tokens[1].value)), depth);
      } else if depth < MAX_DEPTH {
        ParserKeepsShape(fold, tokens[2..], [], depth + 1);
        var child := ParseObject(fold, tokens[2..], [], depth + 1);
        if child.Some? {
          AssignKeepsShape(fold, target, key, Object(child.value.fields), MAX_DEPTH - depth);
          ParserKeepsShape(fold, child.value.rest, Assign(fold, target, key, Object(child.value.fields)), depth);
        }
      }
    }
  }

  lemma EmptyShape(fold: Fold)
    ensures Depth([]) == 0 && WellKeyed(fold, [])
  {
  }

  /** Whatever the text, a tree that was read can be printed and read again. */
  lemma WhatIsReadCanBePrinted(fold: Fold, text: string)
    ensures var r := ParseText(fold, text); r.Ok? ==> ParseText(fold, Print(r.value)) == r
  {
    EmptyShape(fold);
    var tokens := Tokens(text);
    if tokens.Some? {
      ParserKeepsShape(fold, tokens.value, [], 0);
      var r := ParseText(fold, text);
      if r.Ok? {
        PrintThenParse(fold, r.value);
      }
    }
  }
}
