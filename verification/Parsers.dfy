/** The engine's query parser and the reference parser, written independently from one
    grammar, and their agreement.
  */
module Parsers {
  import opened Dsl
  import opened Wrappers

  datatype ParseError = ParseError(kind: ErrorKind, pos: nat)

  datatype ParseLimits = ParseLimits(maxQueryLength: nat, maxClauses: nat, maxAnyOfSize: nat)

  const DEFAULT_LIMITS := ParseLimits(MAX_QUERY_LENGTH, MAX_CLAUSES, MAX_ANY_OF_SIZE)

  // ---- the grammar ----

  /** The clause that starts at index `i`, and the index after it. */
  function ReadClause(chars: string, i: nat, maxAnyOfSize: nat): (r: Result<(Clause, nat), ErrorKind>)
    requires i < |chars| && !IsSpace(chars[i])
    ensures r.Ok? ==> i < r.value.1 <= |chars|
  {
    var negated := chars[i] == '-';
    if negated && (i + 1 == |chars| || IsSpace(chars[i + 1])) then Err(TrailingDash)
    else
      match ReadAtom(chars, if negated then i + 1 else i, maxAnyOfSize)
      case Err(e) => Err(e)
      case Ok((atom, next)) => Ok((Clause(negated, atom), next))
  }

  function ReadAtom(chars: string, i: nat, maxAnyOfSize: nat): (r: Result<(Atom, nat), ErrorKind>)
    requires i < |chars| && !IsSpace(chars[i])
    ensures r.Ok? ==> i < r.value.1 <= |chars|
    ensures r.Err? ==> r.error != TrailingDash
  {
    if chars[i] == '(' then
      var end := FindFrom(chars, i + 1, IsClose);
      if end == |chars| then Err(UnclosedGroup)
      else
        var members := Members(Split(chars[i + 1..end]));
        if members == [] then Err(EmptyAnyOfGroup)
        else if |members| > maxAnyOfSize then Err(AnyOfGroupTooLarge)
        else Ok((AnyOf(members), end + 1))
    else if chars[i] == '"' then
      var end := FindFrom(chars, i + 1, IsQuote);
      if end == |chars| then Err(UnclosedQuote)
      else Ok((Phrase(Trim(chars[i + 1..end])), end + 1))
    else
      var end := FindFrom(chars, i, EndsTerm);
      WordIsLong(chars, i);
      Ok((Term(chars[i..end]), end))
  }

  lemma WordIsLong(chars: string, i: nat)
    requires i < |chars| && !IsSpace(chars[i]) && chars[i] != '(' && chars[i] != '"'
    ensures i < FindFrom(chars, i, EndsTerm)
  {
    hide IsSpace;
  }

  // ---- the reference parser ----

  /** Clauses read so far, then the text from `rest` on; gives up at one clause too many. */
  function RefFrom(chars: string, rest: nat, done: seq<Clause>): Result<seq<Clause>, ErrorKind>
    requires rest <= |chars|
    decreases |chars| - rest
  {
    var i := FindFrom(chars, rest, NotSpace);
    if i == |chars| then Ok(done)
    else
      match ReadClause(chars, i, MAX_ANY_OF_SIZE)
      case Err(e) => Err(e)
      case Ok((clause, next)) =>
        if |done| + 1 > MAX_CLAUSES then Err(TooManyClauses) else RefFrom(chars, next, done + [clause])
  }

  function RefSpec(input: string): Result<seq<Clause>, ErrorKind> {
    if ByteLength(input) > MAX_QUERY_LENGTH then Err(QueryTooLong) else RefFrom(input, 0, [])
  }

  /** Scanning a suffix is scanning the text from where the suffix begins. */
  lemma {:induction false} FindShift(chars: string, i: nat, k: nat, stop: char -> bool)
    requires i + k <= |chars|
    ensures FindFrom(chars, i + k, stop) == i + k + Find(chars[i..][k..], stop)
    decreases |chars| - i - k
  {
    assert chars[i..][k..] == chars[i + k..];
    if i + k < |chars| && !stop(chars[i + k]) {
      FindShift(chars, i, k + 1, stop);
      assert chars[i..][k + 1..] == chars[i + k..][1..];
    }
  }

  /** What was read at the front of the suffix that begins at `i`, against the grammar. */
  ghost predicate ReadsAtomOf(chars: string, i: nat, r: Result<Atom, ErrorKind>, rest: string)
    requires i < |chars| && !IsSpace(chars[i])
  {
    match ReadAtom(chars, i, MAX_ANY_OF_SIZE)
    case Err(kind) => r == Err(kind)
    case Ok((atom, next)) => r == Ok(atom) && rest == chars[next..]
  }

  /** A group at the front of the text that is left. */
  method RefGroup(content: string, ghost chars: string, ghost i: nat) returns (r: Result<Atom, ErrorKind>, rest: string)
    requires i < |chars| && chars[i] == '(' && !IsSpace(chars[i]) && content == chars[i + 1..]
    ensures ReadsAtomOf(chars, i, r, rest)
  {
    hide Split, Members, IsSpace, Find, FindFrom;
    rest := content;
    var end := Find(content, IsClose);
    FindShift(chars, i + 1, 0, IsClose);
    assert content[0..] == content;
    if end == |content| {
      return Err(UnclosedGroup), rest;
    }
    assert content[..end] == chars[i + 1..i + 1 + end];
    var members := Members(Split(content[..end]));
    if members == [] {
      return Err(EmptyAnyOfGroup), rest;
    }
    if |members| > MAX_ANY_OF_SIZE {
      return Err(AnyOfGroupTooLarge), rest;
    }
    return Ok(AnyOf(members)), content[end + 1..];
  }

  /** A quoted phrase there. */
  method RefQuoted(content: string, ghost chars: string, ghost i: nat)
    returns (r: Result<Atom, ErrorKind>, rest: string)
    requires i < |chars| && chars[i] == '"' && !IsSpace(chars[i]) && content == chars[i + 1..]
    ensures ReadsAtomOf(chars, i, r, rest)
  {
    hide Trim, IsSpace, Find, FindFrom;
    rest := content;
    var end := Find(content, IsQuote);
    FindShift(chars, i + 1, 0, IsQuote);
    assert content[0..] == content;
    if end == |content| {
      return Err(UnclosedQuote), rest;
    }
    assert content[..end] == chars[i + 1..i + 1 + end];
    return Ok(Phrase(Trim(content[..end]))), content[end + 1..];
  }

  /** The reference's three kinds of atom, read off the front of the text that is left. */
  method RefAtom(rest0: string, ghost chars: string, ghost i: nat) returns (r: Result<Atom, ErrorKind>, rest: string)
    requires i < |chars| && !IsSpace(chars[i]) && rest0 == chars[i..]
    ensures ReadsAtomOf(chars, i, r, rest)
  {
    hide Split, Members, Trim, IsSpace, Find, FindFrom;
    if rest0[0] == '(' {
      r, rest := RefGroup(rest0[1..], chars, i);
      return;
    }
    if rest0[0] == '"' {
      r, rest := RefQuoted(rest0[1..], chars, i);
      return;
    }
    var end := Find(rest0, EndsTerm);
    FindShift(chars, i, 0, EndsTerm);
    assert rest0[0..] == rest0 && rest0[..end] == chars[i..i + end];
    return Ok(Term(rest0[..end])), rest0[end..];
  }

  /** One clause off the front of the text that is left. */
  method RefClause(rest0: string, ghost chars: string, ghost i: nat)
    returns (r: Result<Clause, ErrorKind>, rest: string)
    requires i < |chars| && !IsSpace(chars[i]) && rest0 == chars[i..]
    ensures match ReadClause(chars, i, MAX_ANY_OF_SIZE)
            case Err(kind) => r == Err(kind)
            case Ok((clause, next)) => r == Ok(clause) && rest == chars[next..]
  {
    hide ReadAtom, IsSpace;
    rest := rest0;
    var negated := rest[0] == '-';
    if negated {
      rest := rest[1..];
      if rest == "" || IsSpace(rest[0]) {
        return Err(TrailingDash), rest;
      }
    }
    var atom, after := RefAtom(rest, chars, if negated then i + 1 else i);
    if atom.Err? {
      return Err(atom.error), rest;
    }
    return Ok(Clause(negated, atom.value)), after;
  }

  lemma TrimmedBegins(input: string, at: nat)
    requires at <= |input|
    ensures TrimStart(input[at..]) == input[FindFrom(input, at, NotSpace)..]
  {
    FindShift(input, at, 0, NotSpace);
    assert input[at..][0..] == input[at..];
  }

  /** The reference parser's loop over the text that is left. */
  method RefParse(input: string) returns (r: Result<seq<Clause>, ErrorKind>)
    ensures r == RefSpec(input)
    ensures SameAnswer(input, EngineSpec(input, DEFAULT_LIMITS), r)
  {
    ParsersAgree(input);
    hide SameAnswer, ByteLength, EngineSpec, ReadClause, FindFrom, TrimStart, IsSpace;
    if ByteLength(input) > MAX_QUERY_LENGTH {
      return Err(QueryTooLong);
    }
    var rest := input;
    ghost var at := 0;
    var clauses: seq<Clause> := [];
    while true
      invariant at <= |input| && rest == input[at..] && |clauses| <= MAX_CLAUSES
      invariant RefFrom(input, 0, []) == RefFrom(input, at, clauses)
      decreases |input| - at
    {
      TrimmedBegins(input, at);
      ghost var i := FindFrom(input, at, NotSpace);
      rest := TrimStart(rest);
      if rest == "" {
        return Ok(clauses);
      }
      var clause, after := RefClause(rest, input, i);
      if clause.Err? {
        return Err(clause.error);
      }
      clauses := clauses + [clause.value];
      if |clauses| > MAX_CLAUSES {
        return Err(TooManyClauses);
      }
      rest, at := after, ReadClause(input, i, MAX_ANY_OF_SIZE).value.1;
    }
  }

  // ---- the engine's result, with positions and configured limits ----

  /** Where the engine points for an error in the clause that starts at `at`. */
  function ErrorPos(kind: ErrorKind, at: nat, negated: bool): nat {
    if negated && kind != TrailingDash then at + 1 else at
  }

  function EngineFrom(chars: string, from: nat, maxAnyOfSize: nat): Result<seq<Clause>, ParseError>
    requires from <= |chars|
    decreases |chars| - from
  {
    var i := FindFrom(chars, from, NotSpace);
    if i == |chars| then Ok([])
    else
      match ReadClause(chars, i, maxAnyOfSize)
      case Err(kind) => Err(ParseError(kind, ErrorPos(kind, i, chars[i] == '-')))
      case Ok((clause, next)) => Prepend([clause], EngineFrom(chars, next, maxAnyOfSize))
  }

  function Prepend(clauses: seq<Clause>, r: Result<seq<Clause>, ParseError>): Result<seq<Clause>, ParseError> {
    match r
    case Err(e) => Err(e)
    case Ok(more) => Ok(clauses + more)
  }

  function EngineSpec(input: string, limits: ParseLimits): Result<seq<Clause>, ParseError> {
    if ByteLength(input) > limits.maxQueryLength then Err(ParseError(QueryTooLong, 0))
    else
      match EngineFrom(input, 0, limits.maxAnyOfSize)
      case Err(e) => Err(e)
      case Ok(clauses) => if |clauses| > limits.maxClauses then Err(ParseError(TooManyClauses, 0)) else Ok(clauses)
  }

  // ---- the engine's scan of a group, one character at a time ----

  function PushMember(members: seq<string>, cur: string): seq<string> {
    var t := Trim(cur);
    if t == [] then members else members + [t]
  }

  /** The members the scan ends with, from text still to read and the member being built. */
  function Scan(body: string, members: seq<string>, cur: string): seq<string>
    decreases |body|
  {
    if body == [] then PushMember(members, cur)
    else if body[0] == ',' then Scan(body[1..], PushMember(members, cur), [])
    else Scan(body[1..], members, cur + [Blank(body[0])])
  }

  lemma BlankAppend(p: string, c: char)
    ensures BlankAll(p + [c]) == BlankAll(p) + [Blank(c)]
  {
  }

  lemma SplitCons(body: string)
    requires body != []
    ensures body[0] == ',' ==> Split(body) == [[]] + Split(body[1..])
    ensures body[0] != ',' ==> Split(body) == [[body[0]] + Split(body[1..])[0]] + Split(body[1..])[1..]
  {
    if body[0] == ',' {
      assert Find(body, IsComma) == 0;
      assert body[..0] == [];
    } else {
      var k := Find(body[1..], IsComma);
      assert Find(body, IsComma) == k + 1;
      if k == |body[1..]| {
        assert body == [body[0]] + body[1..];
      } else {
        assert body[..k + 1] == [body[0]] + body[1..][..k];
        assert body[k + 2..] == body[1..][k + 1..];
      }
    }
  }

  /** Scanning character by character finds the trimmed, blanked pieces between commas. */
  lemma {:induction false} ScanIsSplit(body: string, members: seq<string>, p: string)
    ensures Scan(body, members, BlankAll(p)) == members + Members(Lengthened(p, Split(body)))
    decreases |body|
  {
    if body == [] {
      assert Split(body) == [[]];
      assert Lengthened(p, Split(body)) == [p] + [] by { assert p + [] == p; }
      PushIsMember(members, p, []);
    } else if body[0] == ',' {
      var rest := Split(body[1..]);
      SplitCons(body);
      assert Lengthened(p, [[]] + rest) == [p] + rest by { assert p + [] == p; }
      PushIsMember(members, p, rest);
      assert BlankAll([]) == [];
      ScanIsSplit(body[1..], PushMember(members, BlankAll(p)), []);
      LengthenedByNothing(rest);
    } else {
      SplitCons(body);
      BlankAppend(p, body[0]);
      ScanIsSplit(body[1..], members, p + [body[0]]);
      LengthenedTwice(p, body[0], Split(body[1..]));
    }
  }

  /** The pieces with `p` put in front of the first. */
  function Lengthened(p: string, pieces: seq<string>): seq<string>
    requires pieces != []
  {
    [p + pieces[0]] + pieces[1..]
  }

  lemma LengthenedByNothing(pieces: seq<string>)
    requires pieces != []
    ensures Lengthened([], pieces) == pieces
  {
    assert [] + pieces[0] == pieces[0];
  }

  lemma LengthenedTwice(p: string, c: char, pieces: seq<string>)
    requires pieces != []
    ensures Lengthened(p, [[c] + pieces[0]] + pieces[1..]) == Lengthened(p + [c], pieces)
  {
    assert p + ([c] + pieces[0]) == p + [c] + pieces[0];
  }

  lemma PushIsMember(members: seq<string>, p: string, rest: seq<string>)
    ensures PushMember(members, BlankAll(p)) + Members(rest) == members + Members([p] + rest)
  {
    TrimBlank(p);
    assert ([p] + rest)[1..] == rest;
    assert BlankAll(Trim(p)) == [] <==> Trim(p) == [];
  }

  lemma ScanIsMembers(body: string)
    ensures Scan(body, [], []) == Members(Split(body))
  {
    ScanIsSplit(body, [], []);
    assert BlankAll([]) == [];
    LengthenedByNothing(Split(body));
  }

  // ---- the engine's loops ----

  /** What a loop of the engine found, against what the grammar reads there. */
  ghost predicate ReadsAtom(chars: string, at: nat, found: Result<Atom, ErrorKind>, next: nat, maxAnyOfSize: nat)
    requires at < |chars| && !IsSpace(chars[at])
  {
    match ReadAtom(chars, at, maxAnyOfSize)
    case Err(kind) => found == Err(kind)
    case Ok((atom, after)) => found == Ok(atom) && next == after
  }

  method EngineGroup(chars: string, open: nat, maxAnyOfSize: nat) returns (found: Result<Atom, ErrorKind>, next: nat)
    requires open < |chars| && chars[open] == '(' && !IsSpace(chars[open])
    ensures ReadsAtom(chars, open, found, next, maxAnyOfSize)
  {
    hide IsSpace, Trim, Split, Members;
    var i := open + 1;
    var members: seq<string> := [];
    var cur := "";
    ghost var end := FindFrom(chars, open + 1, IsClose);
    ScanIsMembers(chars[open + 1..end]);
    while i < |chars| && chars[i] != ')'
      invariant open < i <= end
      invariant Scan(chars[i..end], members, cur) == Scan(chars[open + 1..end], [], [])
    {
      assert chars[i..end][0] == chars[i] && chars[i..end][1..] == chars[i + 1..end];
      if chars[i] == ',' {
        members := PushMember(members, cur);
        cur := "";
      } else {
        cur := cur + [Blank(chars[i])];
      }
      i := i + 1;
    }
    assert i == end;
    if i >= |chars| {
      return Err(UnclosedGroup), i;
    }
    i := i + 1;
    members := PushMember(members, cur);
    assert chars[end..end] == [];
    if members == [] {
      return Err(EmptyAnyOfGroup), i;
    }
    if |members| > maxAnyOfSize {
      return Err(AnyOfGroupTooLarge), i;
    }
    return Ok(AnyOf(members)), i;
  }

  method EnginePhrase(chars: string, open: nat, maxAnyOfSize: nat) returns (found: Result<Atom, ErrorKind>, next: nat)
    requires open < |chars| && chars[open] == '"' && !IsSpace(chars[open])
    ensures ReadsAtom(chars, open, found, next, maxAnyOfSize)
  {
    hide IsSpace, Trim;
    var i := open + 1;
    var phrase := "";
    while i < |chars| && chars[i] != '"'
      invariant open < i <= FindFrom(chars, open + 1, IsQuote)
      invariant phrase == chars[open + 1..i]
    {
      phrase := phrase + [chars[i]];
      i := i + 1;
    }
    assert i == FindFrom(chars, open + 1, IsQuote);
    if i >= |chars| {
      return Err(UnclosedQuote), i;
    }
    i := i + 1;
    return Ok(Phrase(Trim(phrase))), i;
  }

  method EngineTerm(chars: string, start: nat, maxAnyOfSize: nat) returns (found: Result<Atom, ErrorKind>, next: nat)
    requires start < |chars| && !EndsTerm(chars[start])
    ensures ReadsAtom(chars, start, found, next, maxAnyOfSize)
    ensures found.Ok? && found.value.Term? && found.value.word != []
  {
    hide IsSpace;
    var i := start;
    var word := "";
    while i < |chars| && !IsSpace(chars[i]) && chars[i] != '(' && chars[i] != '"'
      invariant start <= i <= FindFrom(chars, start, EndsTerm)
      invariant word == chars[start..i]
    {
      word := word + [chars[i]];
      i := i + 1;
    }
    assert i == FindFrom(chars, start, EndsTerm);
    return Ok(Term(word)), i;
  }

  method EngineClause(chars: string, start: nat, maxAnyOfSize: nat) returns (r: Result<Clause, ParseError>, next: nat)
    requires start < |chars| && !IsSpace(chars[start])
    ensures match ReadClause(chars, start, maxAnyOfSize)
            case Err(kind) => r == Err(ParseError(kind, ErrorPos(kind, start, chars[start] == '-')))
            case Ok((clause, after)) => r == Ok(clause) && next == after
  {
    hide ReadAtom, IsSpace;
    var i := start;
    var negated := false;
    if chars[i] == '-' {
      negated := true;
      i := i + 1;
      if i >= |chars| || IsSpace(chars[i]) {
        return Err(ParseError(TrailingDash, start)), i;
      }
    }
    var found;
    if chars[i] == '(' {
      found, next := EngineGroup(chars, i, maxAnyOfSize);
    } else if chars[i] == '"' {
      found, next := EnginePhrase(chars, i, maxAnyOfSize);
    } else {
      found, next := EngineTerm(chars, i, maxAnyOfSize);
    }
    match found {
      case Err(kind) => return Err(ParseError(kind, i)), next;
      case Ok(atom) => return Ok(Clause(negated, atom)), next;
    }
  }

  /** The engine's parser: one index drives every loop. */
  method ParseWithLimits(input: string, limits: ParseLimits) returns (r: Result<seq<Clause>, ParseError>)
    ensures r == EngineSpec(input, limits)
  {
    if ByteLength(input) > limits.maxQueryLength {
      return Err(ParseError(QueryTooLong, 0));
    }
    var i := 0;
    var clauses: seq<Clause> := [];
    PrependNothing(EngineFrom(input, 0, limits.maxAnyOfSize));
    while i < |input|
      invariant 0 <= i <= |input|
      invariant EngineFrom(input, 0, limits.maxAnyOfSize) == Prepend(clauses, EngineFrom(input, i, limits.maxAnyOfSize))
    {
      ghost var from := i;
      while i < |input| && IsSpace(input[i])
        invariant from <= i <= FindFrom(input, from, NotSpace)
      {
        i := i + 1;
      }
      assert i == FindFrom(input, from, NotSpace);
      if i >= |input| {
        assert EngineFrom(input, from, limits.maxAnyOfSize) == Ok([]);
        break;
      }
      var clause, next := EngineClause(input, i, limits.maxAnyOfSize);
      if clause.Err? {
        return Err(clause.error);
      }
      PrependMore(clauses, clause.value, EngineFrom(input, next, limits.maxAnyOfSize));
      clauses := clauses + [clause.value];
      i := next;
    }
    PrependEnd(clauses);
    if |clauses| > limits.maxClauses {
      return Err(ParseError(TooManyClauses, 0));
    }
    return Ok(clauses);
  }

  lemma PrependNothing(r: Result<seq<Clause>, ParseError>)
    ensures Prepend([], r) == r
  {
    if r.Ok? { assert [] + r.value == r.value; }
  }

  lemma PrependEnd(clauses: seq<Clause>)
    ensures Prepend(clauses, Ok([])) == Ok(clauses)
  {
    assert clauses + [] == clauses;
  }

  lemma PrependMore(clauses: seq<Clause>, clause: Clause, r: Result<seq<Clause>, ParseError>)
    ensures Prepend(clauses, Prepend([clause], r)) == Prepend(clauses + [clause], r)
  {
    if r.Ok? { assert clauses + ([clause] + r.value) == clauses + [clause] + r.value; }
  }

  // ---- agreement ----

  /** How many clauses can be read before the first error, or before the end. */
  function ReadBefore(chars: string, from: nat): nat
    requires from <= |chars|
    decreases |chars| - from
  {
    var i := FindFrom(chars, from, NotSpace);
    if i == |chars| then 0
    else
      match ReadClause(chars, i, MAX_ANY_OF_SIZE)
      case Err(_) => 0
      case Ok((_, next)) => 1 + ReadBefore(chars, next)
  }

  /** The reference's answer, given the engine's and the number of clauses still readable. */
  function Referred(engine: Result<seq<Clause>, ParseError>, done: seq<Clause>, readable: nat): Result<seq<Clause>,
                    ErrorKind> {
    if |done| + readable > MAX_CLAUSES then Err(TooManyClauses)
    else
      match engine
      case Err(e) => Err(e.kind)
      case Ok(more) => Ok(done + more)
  }

  lemma ReferredStep(engine: Result<seq<Clause>, ParseError>, done: seq<Clause>, clause: Clause, readable: nat)
    ensures Referred(Prepend([clause], engine), done, 1 + readable) == Referred(engine, done + [clause], readable)
  {
    if engine.Ok? { assert done + [clause] + engine.value == done + ([clause] + engine.value); }
  }

  lemma {:induction false} AgreeFrom(chars: string, from: nat, done: seq<Clause>)
    requires from <= |chars| && |done| <= MAX_CLAUSES
    ensures RefFrom(chars, from, done) ==
              Referred(EngineFrom(chars, from, MAX_ANY_OF_SIZE), done, ReadBefore(chars, from))
    decreases |chars| - from
  {
    hide ReadClause, FindFrom, Prepend;
    var i := FindFrom(chars, from, NotSpace);
    if i == |chars| {
      assert done + [] == done;
    } else {
      var read := ReadClause(chars, i, MAX_ANY_OF_SIZE);
      if read.Ok? {
        var clause, next := read.value.0, read.value.1;
        ReferredStep(EngineFrom(chars, next, MAX_ANY_OF_SIZE), done, clause, ReadBefore(chars, next));
        if |done| + 1 <= MAX_CLAUSES {
          AgreeFrom(chars, next, done + [clause]);
          hide Referred;
        }
      }
    }
  }

  lemma {:induction false} ReadAll(chars: string, from: nat)
    requires from <= |chars| && EngineFrom(chars, from, MAX_ANY_OF_SIZE).Ok?
    ensures ReadBefore(chars, from) == |EngineFrom(chars, from, MAX_ANY_OF_SIZE).value|
    decreases |chars| - from
  {
    var i := FindFrom(chars, from, NotSpace);
    if i < |chars| { ReadAll(chars, ReadClause(chars, i, MAX_ANY_OF_SIZE).value.1); }
  }

  /** Both accept with the same clauses, or both refuse. The reasons are the same, except that the reference, which
      counts while it reads, reports too many clauses where the engine reports an error behind the last one allowed. */
  ghost predicate SameAnswer(input: string, engine: Result<seq<Clause>, ParseError>,
                             reference: Result<seq<Clause>, ErrorKind>) {
    match (engine, reference)
    case (Ok(a), Ok(b)) => a == b
    case (Err(e), Err(k)) =>
      k == if ByteLength(input) <= MAX_QUERY_LENGTH &&
          ReadBefore(input, 0) > MAX_CLAUSES then TooManyClauses else e.kind
    case _ => false
  }

  /** Under the default limits both parsers give the same answer to every text. */
  lemma ParsersAgree(input: string)
    ensures SameAnswer(input, EngineSpec(input, DEFAULT_LIMITS), RefSpec(input))
  {
    AgreeFrom(input, 0, []);
    var r := EngineFrom(input, 0, MAX_ANY_OF_SIZE);
    hide EngineFrom, RefFrom, ReadBefore, ByteLength;
    if r.Ok? {
      ReadAll(input, 0);
      assert [] + r.value == r.value;
    }
  }

  /** `n` one-letter words, then a group that is never closed. */
  function WordsThenGroup(n: nat): string {
    seq(2 * n + 1, i => if i == 2 * n then '(' else if i % 2 == 0 then 'a' else ' ')
  }

  lemma WordRead(n: nat, k: nat)
    requires k < n
    ensures var chars := WordsThenGroup(n);
            && !IsSpace(chars[2 * k]) && IsSpace(chars[2 * k + 1])
            && ReadClause(chars, 2 * k, MAX_ANY_OF_SIZE) ==
                Ok((Clause(false, Term(chars[2 * k..2 * k + 1])), 2 * k + 1))
  {
    var chars := WordsThenGroup(n);
    GrammarCharacters();
    Printable('a');
    assert chars[2 * k] == 'a' && chars[2 * k + 1] == ' ';
    hide IsSpace, WordsThenGroup;
    assert FindFrom(chars, 2 * k + 1, EndsTerm) == 2 * k + 1;
    assert FindFrom(chars, 2 * k, EndsTerm) == 2 * k + 1;
  }

  lemma GroupRefused(n: nat)
    ensures !IsSpace(WordsThenGroup(n)[2 * n])
    ensures ReadClause(WordsThenGroup(n), 2 * n, MAX_ANY_OF_SIZE) == Err(UnclosedGroup)
  {
    GrammarCharacters();
    hide IsSpace;
    assert FindFrom(WordsThenGroup(n), 2 * n + 1, IsClose) == 2 * n + 1;
  }

  lemma {:induction false} WordsRead(n: nat, k: nat)
    requires k <= n
    ensures EngineFrom(WordsThenGroup(n), 2 * k, MAX_ANY_OF_SIZE).Err?
    ensures EngineFrom(WordsThenGroup(n), 2 * k, MAX_ANY_OF_SIZE).error.kind == UnclosedGroup
    ensures ReadBefore(WordsThenGroup(n), 2 * k) == n - k
    decreases n - k
  {
    var chars := WordsThenGroup(n);
    assert |chars| == 2 * n + 1;
    hide ReadClause, IsSpace, WordsThenGroup;
    if k < n {
      WordRead(n, k);
      WordsRead(n, k + 1);
      SpaceSkipped(chars, 2 * k + 1);
    } else {
      GroupRefused(n);
    }
    assert FindFrom(chars, 2 * k, NotSpace) == 2 * k;
  }

  lemma SpaceSkipped(chars: string, i: nat)
    requires i < |chars| && IsSpace(chars[i])
    ensures EngineFrom(chars, i, MAX_ANY_OF_SIZE) == EngineFrom(chars, i + 1, MAX_ANY_OF_SIZE)
    ensures ReadBefore(chars, i) == ReadBefore(chars, i + 1)
  {
    assert FindFrom(chars, i, NotSpace) == FindFrom(chars, i + 1, NotSpace);
    hide ReadClause, IsSpace;
  }

  lemma {:induction false} PlainLength(s: string)
    requires forall i :: 0 <= i < |s| ==> s[i] <= '~'
    ensures ByteLength(s) == |s|
  {
    if s != [] { PlainLength(s[1..]); }
  }

  lemma WordsLength(n: nat)
    ensures ByteLength(WordsThenGroup(n)) == 2 * n + 1
  {
    PlainLength(WordsThenGroup(n));
  }

  /** For every number of words past the limit that the length limit allows, the two reasons differ. */
  lemma ErrorKindsDiffer(n: nat)
    requires MAX_CLAUSES < n && 2 * n + 1 <= MAX_QUERY_LENGTH
    ensures var text := WordsThenGroup(n);
            && RefSpec(text) == Err(TooManyClauses)
            && EngineSpec(text, DEFAULT_LIMITS).Err? && EngineSpec(text, DEFAULT_LIMITS).error.kind == UnclosedGroup
  {
    var text := WordsThenGroup(n);
    hide WordsThenGroup, EngineFrom, ReadBefore, ByteLength, RefSpec;
    WordsRead(n, 0);
    WordsLength(n);
    ParsersAgree(text);
  }
}
