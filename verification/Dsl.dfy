/** The query language: characters, clauses and the text operations both parsers share. */
module Dsl {

  datatype Atom = Term(word: string) | Phrase(text: string) | AnyOf(members: seq<string>)

  datatype Clause = Clause(negated: bool, atom: Atom)

  datatype ErrorKind =
    | QueryTooLong
    | TrailingDash
    | UnclosedGroup
    | EmptyAnyOfGroup
    | AnyOfGroupTooLarge
    | UnclosedQuote
    | TooManyClauses

  const MAX_QUERY_LENGTH := 10240
  const MAX_CLAUSES := 256
  const MAX_ANY_OF_SIZE := 64

  // ---- characters ----

  /** The code points with the Unicode White_Space property, as inclusive ranges. */
  const WHITE_SPACE: Ranges :=
    Range(0x09, 0x0D, Range(0x20, 0x20, Range(0x85, 0x85, Range(0xA0, 0xA0, Range(0x1680, 0x1680,
    Range(0x2000, 0x200A, Range(0x2028, 0x2029, Range(0x202F, 0x202F, Range(0x205F, 0x205F,
    Range(0x3000, 0x3000, NoRange))))))))))

  datatype Ranges = NoRange | Range(low: int, high: int, rest: Ranges)

  predicate InRanges(u: int, ranges: Ranges) {
    match ranges
    case NoRange => false
    case Range(low, high, rest) => low <= u <= high || InRanges(u, rest)
  }

  predicate IsSpace(c: char) {
    InRanges(c as int, WHITE_SPACE)
  }

  /** A plain space is white space; the characters of the grammar are not. */
  lemma GrammarCharacters()
    ensures IsSpace(' ')
    ensures !IsSpace('(') && !IsSpace(')') && !IsSpace('"') && !IsSpace(',') && !IsSpace('-')
  {
    Printable('(');
    Printable(')');
    Printable('"');
    Printable(',');
    Printable('-');
  }

  lemma Printable(c: char)
    requires '!' <= c <= '~'
    ensures !IsSpace(c)
  {
    var high := WHITE_SPACE.rest.rest;
    assert !InRanges(c as int, high.rest.rest.rest.rest.rest.rest.rest);
    assert !InRanges(c as int, high.rest.rest.rest.rest.rest.rest);
    assert !InRanges(c as int, high.rest.rest.rest.rest);
    assert !InRanges(c as int, high.rest.rest);
    assert !InRanges(c as int, high);
    assert !InRanges(c as int, WHITE_SPACE.rest);
  }

  function Utf8Width(c: char): nat {
    var u := c as int;
    if u < 0x80 then 1 else if u < 0x800 then 2 else if u < 0x1_0000 then 3 else 4
  }

  /** The length of a string in UTF-8 bytes. */
  function ByteLength(s: string): nat {
    if s == [] then 0 else Utf8Width(s[0]) + ByteLength(s[1..])
  }

  // ---- trimming, splitting, blanking ----

  /** Index of the first character that stops the scan, or the length. */
  function Find(s: string, stop: char -> bool): (r: nat)
    ensures r <= |s|
    ensures forall i :: 0 <= i < r ==> !stop(s[i])
    ensures r < |s| ==> stop(s[r])
  {
    if s == [] || stop(s[0]) then 0 else 1 + Find(s[1..], stop)
  }

  predicate NotSpace(c: char) { !IsSpace(c) }

  function TrimStart(s: string): (r: string)
    ensures |r| <= |s| && r == s[|s| - |r|..]
    ensures r != [] ==> !IsSpace(r[0])
  {
    s[Find(s, NotSpace)..]
  }

  function TrimEnd(s: string): string {
    if s != [] && IsSpace(s[|s| - 1]) then TrimEnd(s[..|s| - 1]) else s
  }

  function Trim(s: string): string {
    TrimEnd(TrimStart(s))
  }

  /** Any white space as a plain space. */
  function Blank(c: char): char {
    if IsSpace(c) then ' ' else c
  }

  function BlankAll(s: string): (r: string)
    ensures |r| == |s|
    ensures forall i :: 0 <= i < |s| ==> r[i] == Blank(s[i])
  {
    seq(|s|, i requires 0 <= i < |s| => Blank(s[i]))
  }

  /** The same scan from an index on. */
  function FindFrom(s: string, i: nat, stop: char -> bool): (r: nat)
    requires i <= |s|
    ensures i <= r <= |s|
    ensures forall k :: i <= k < r ==> !stop(s[k])
    ensures r < |s| ==> stop(s[r])
    decreases |s| - i
  {
    if i == |s| || stop(s[i]) then i else FindFrom(s, i + 1, stop)
  }

  predicate IsClose(c: char) { c == ')' }
  predicate IsQuote(c: char) { c == '"' }
  predicate IsComma(c: char) { c == ',' }
  predicate EndsTerm(c: char) { IsSpace(c) || c == '(' || c == '"' }

  /** The pieces between commas; never empty. */
  function Split(s: string): (r: seq<string>)
    ensures r != []
  {
    var i := Find(s, IsComma);
    if i == |s| then [s] else [s[..i]] + Split(s[i + 1..])
  }

  /** What a group keeps of its pieces: trimmed, blanked, none empty. */
  function Members(pieces: seq<string>): seq<string> {
    if pieces == [] then []
    else
      var m := Trim(pieces[0]);
      (if m == [] then [] else [BlankAll(m)]) + Members(pieces[1..])
  }

  // ---- facts ----

  lemma {:induction false} FindIs(s: string, stop: char -> bool, k: nat)
    requires k <= |s| && (forall i :: 0 <= i < k ==> !stop(s[i])) && (k < |s| ==> stop(s[k]))
    ensures Find(s, stop) == k
  {
  }

  lemma TrimStartBlank(s: string)
    ensures TrimStart(BlankAll(s)) == BlankAll(TrimStart(s))
  {
    var k := Find(s, NotSpace);
    FindIs(BlankAll(s), NotSpace, k);
    assert BlankAll(s)[k..] == BlankAll(s[k..]);
  }

  lemma {:induction false} TrimEndBlank(s: string)
    ensures TrimEnd(BlankAll(s)) == BlankAll(TrimEnd(s))
  {
    if s != [] && IsSpace(s[|s| - 1]) {
      assert BlankAll(s)[..|s| - 1] == BlankAll(s[..|s| - 1]);
      TrimEndBlank(s[..|s| - 1]);
    }
  }

  /** Trimming and blanking can be done in either order. */
  lemma TrimBlank(s: string)
    ensures Trim(BlankAll(s)) == BlankAll(Trim(s))
  {
    TrimStartBlank(s);
    TrimEndBlank(TrimStart(s));
  }
}
