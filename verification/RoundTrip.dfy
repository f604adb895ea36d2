/** Writing clauses back as text. The clause lists a text can mean are exactly those that
    survive being written and read again.
  */
module RoundTrip {
  import opened Dsl
  import opened Parsers
  import opened Wrappers

  function Join(members: seq<string>): string
    requires members != []
  {
    if |members| == 1 then members[0] else members[0] + "," + Join(members[1..])
  }

  function RenderAtom(atom: Atom): string {
    match atom
    case Term(word) => word
    case Phrase(text) => ['"'] + text + ['"']
    case AnyOf(members) => ['('] + (if members == [] then "" else Join(members)) + [')']
  }

  function RenderClause(clause: Clause): string {
    if clause.negated then ['-'] + RenderAtom(clause.atom) else RenderAtom(clause.atom)
  }

  function Render(clauses: seq<Clause>): string {
    if clauses == [] then "" else RenderClause(clauses[0]) + [' '] + Render(clauses[1..])
  }

  // ---- normal form ----

  predicate NormalMember(m: string) {
    m != [] && Trim(m) == m && BlankAll(m) == m && Avoids(m, ',') && Avoids(m, ')')
  }

  predicate NormalAtom(atom: Atom, negated: bool, maxAnyOfSize: nat) {
    match atom
    case Term(word) =>
      && word != [] && (!negated ==> word[0] != '-')
      && forall i :: 0 <= i < |word| ==> !EndsTerm(word[i])
    case Phrase(text) => Trim(text) == text && Avoids(text, '"')
    case AnyOf(members) =>
      && 0 < |members| <= maxAnyOfSize
      && forall i :: 0 <= i < |members| ==> NormalMember(members[i])
  }

  predicate Normal(clauses: seq<Clause>, maxAnyOfSize: nat) {
    forall i :: 0 <= i < |clauses| ==> NormalAtom(clauses[i].atom, clauses[i].negated, maxAnyOfSize)
  }

  // ---- trimming ----

  lemma {:induction false} TrimEndShape(s: string)
    ensures |TrimEnd(s)| <= |s| && TrimEnd(s) == s[..|TrimEnd(s)|]
    ensures TrimEnd(s) != [] ==> !IsSpace(TrimEnd(s)[|TrimEnd(s)| - 1])
  {
    if s != [] && IsSpace(s[|s| - 1]) {
      TrimEndShape(s[..|s| - 1]);
    }
  }

  lemma TrimIdempotent(s: string)
    ensures Trim(Trim(s)) == Trim(s)
    ensures forall c :: Avoids(s, c) ==> Avoids(Trim(s), c)
  {
    var t := TrimStart(s);
    TrimEndShape(t);
    var u := TrimEnd(t);
    if u != [] {
      assert u[0] == t[0];
      assert Find(u, NotSpace) == 0;
    }
    assert TrimStart(u) == u;
    TrimEndShape(u);
    TrimEndFixed(u);
  }

  lemma TrimEndFixed(u: string)
    requires u != [] ==> !IsSpace(u[|u| - 1])
    ensures TrimEnd(u) == u
  {
  }

  // ---- what is read is normal ----

  predicate Avoids(s: string, c: char) {
    forall k :: 0 <= k < |s| ==> s[k] != c
  }

  lemma {:induction false} SplitAvoids(body: string, c: char, i: nat)
    requires i < |Split(body)|
    requires c == ',' || Avoids(body, c)
    ensures Avoids(Split(body)[i], c)
    decreases |body|
  {
    var k := Find(body, IsComma);
    if k < |body| && i > 0 {
      assert Split(body)[i] == Split(body[k + 1..])[i - 1];
      SplitAvoids(body[k + 1..], c, i - 1);
    }
  }

  lemma BlankAvoids(t: string, c: char)
    requires Avoids(t, c) && c != ' '
    ensures Avoids(BlankAll(t), c)
  {
  }

  lemma PieceIsNormal(piece: string)
    requires Avoids(piece, ',') && Avoids(piece, ')') && Trim(piece) != []
    ensures NormalMember(BlankAll(Trim(piece)))
  {
    GrammarCharacters();
    var t := Trim(piece);
    TrimIdempotent(piece);
    TrimBlank(t);
    BlankAvoids(t, ',');
    BlankAvoids(t, ')');
    assert BlankAll(BlankAll(t)) == BlankAll(t);
  }

  lemma {:induction false} MembersAreNormal(pieces: seq<string>)
    requires forall i :: 0 <= i < |pieces| ==> Avoids(pieces[i], ',') && Avoids(pieces[i], ')')
    ensures forall i :: 0 <= i < |Members(pieces)| ==> NormalMember(Members(pieces)[i])
  {
    hide Trim, BlankAll, NormalMember, Avoids;
    if pieces != [] {
      MembersAreNormal(pieces[1..]);
      if Trim(pieces[0]) != [] {
        PieceIsNormal(pieces[0]);
      }
    }
  }

  lemma GroupIsNormal(chars: string, at: nat, maxAnyOfSize: nat)
    requires at < |chars| && !IsSpace(chars[at]) && chars[at] == '('
    ensures var r := ReadAtom(chars, at, maxAnyOfSize); r.Ok? ==>
              NormalAtom(r.value.0, true, maxAnyOfSize) && r.value.0.AnyOf?
  {
    hide IsSpace, FindFrom, Split, Members, Trim, NormalMember;
    var body := chars[at + 1..FindFrom(chars, at + 1, IsClose)];
    forall i | 0 <= i < |Split(body)|
      ensures Avoids(Split(body)[i], ',') && Avoids(Split(body)[i], ')')
    {
      SplitAvoids(body, ',', i);
      SplitAvoids(body, ')', i);
    }
    MembersAreNormal(Split(body));
  }

  lemma QuotedIsNormal(text: string, maxAnyOfSize: nat)
    requires forall i :: 0 <= i < |text| ==> !IsQuote(text[i])
    ensures NormalAtom(Phrase(Trim(text)), true, maxAnyOfSize)
  {
    TrimIdempotent(text);
  }

  lemma PhraseIsNormal(chars: string, at: nat, maxAnyOfSize: nat)
    requires at < |chars| && !IsSpace(chars[at]) && chars[at] == '"'
    ensures var r := ReadAtom(chars, at, maxAnyOfSize); r.Ok? ==>
              NormalAtom(r.value.0, true, maxAnyOfSize) && r.value.0.Phrase?
  {
    hide Trim, NormalAtom, IsSpace, Split, Members, FindFrom;
    var text := chars[at + 1..FindFrom(chars, at + 1, IsQuote)];
    QuotedIsNormal(text, maxAnyOfSize);
  }

  lemma TermIsNormal(chars: string, at: nat, maxAnyOfSize: nat)
    requires at < |chars| && !EndsTerm(chars[at])
    ensures var r := ReadAtom(chars, at, maxAnyOfSize); r.Ok? && NormalAtom(r.value.0, chars[at] == '-', maxAnyOfSize)
  {
    hide IsSpace, Split, Members, Trim;
  }

  lemma ReadIsNormal(chars: string, i: nat, maxAnyOfSize: nat)
    requires i < |chars| && !IsSpace(chars[i])
    ensures var r := ReadClause(chars, i, maxAnyOfSize);
            r.Ok? ==> NormalAtom(r.value.0.atom, r.value.0.negated, maxAnyOfSize)
  {
    hide IsSpace, ReadAtom, NormalMember, Trim;
    var negated := chars[i] == '-';
    if !(negated && (i + 1 == |chars| || IsSpace(chars[i + 1]))) {
      var at := if negated then i + 1 else i;
      if chars[at] == '(' {
        GroupIsNormal(chars, at, maxAnyOfSize);
      } else if chars[at] == '"' {
        PhraseIsNormal(chars, at, maxAnyOfSize);
      } else {
        TermIsNormal(chars, at, maxAnyOfSize);
      }
    }
  }

  /** Every clause list the parser accepts is normal. */
  lemma {:induction false} AcceptedIsNormal(chars: string, from: nat, maxAnyOfSize: nat)
    requires from <= |chars|
    ensures var r := EngineFrom(chars, from, maxAnyOfSize); r.Ok? ==> Normal(r.value, maxAnyOfSize)
    decreases |chars| - from
  {
    hide IsSpace, ReadClause, NormalAtom, FindFrom;
    var i := FindFrom(chars, from, NotSpace);
    if i < |chars| {
      ReadIsNormal(chars, i, maxAnyOfSize);
      var read := ReadClause(chars, i, maxAnyOfSize);
      if read.Ok? {
        AcceptedIsNormal(chars, read.value.1, maxAnyOfSize);
      }
    }
  }

  // ---- what is normal is read back ----

  lemma FindFromIs(s: string, i: nat, stop: char -> bool, k: nat)
    requires i <= k < |s| && (forall j :: i <= j < k ==> !stop(s[j])) && stop(s[k])
    ensures FindFrom(s, i, stop) == k
  {
  }

  lemma SplitFirst(m: string, rest: string)
    requires Avoids(m, ',')
    ensures Split(m + ("," + rest)) == [m] + Split(rest)
  {
    var text := m + ("," + rest);
    FindIs(text, IsComma, |m|);
    assert text[..|m|] == m && text[|m| + 1..] == rest;
    hide Find;
  }

  lemma SplitOne(m: string)
    requires Avoids(m, ',')
    ensures Split(m) == [m]
  {
    FindIs(m, IsComma, |m|);
  }

  lemma {:induction false} SplitJoin(members: seq<string>)
    requires members != [] && forall i :: 0 <= i < |members| ==> Avoids(members[i], ',')
    ensures Split(Join(members)) == members
  {
    hide Split, Avoids;
    if |members| == 1 {
      SplitOne(members[0]);
    } else {
      var rest := Join(members[1..]);
      assert Join(members) == members[0] + ("," + rest);
      SplitFirst(members[0], rest);
      SplitJoin(members[1..]);
    }
  }

  /** A normal member is a piece that the reader keeps as it is. */
  lemma NormalPieceKept(pieces: seq<string>)
    requires pieces != [] && NormalMember(pieces[0])
    ensures Members(pieces) == [pieces[0]] + Members(pieces[1..])
  {
    hide Trim, BlankAll, Avoids;
  }

  lemma {:induction false} NormalMembersKept(members: seq<string>)
    requires forall i :: 0 <= i < |members| ==> NormalMember(members[i])
    ensures Members(members) == members
  {
    hide NormalMember, Trim, BlankAll;
    if members != [] {
      NormalPieceKept(members);
      NormalMembersKept(members[1..]);
    }
  }

  lemma {:induction false} JoinAvoids(members: seq<string>, c: char)
    requires members != [] && c != ',' && forall i :: 0 <= i < |members| ==> Avoids(members[i], c)
    ensures Avoids(Join(members), c)
  {
    if |members| > 1 { JoinAvoids(members[1..], c); }
  }

  /** `text` stands in `chars` at `at`, with a space behind it. */
  ghost predicate StandsAt(chars: string, at: nat, text: string)
    decreases |text|
  {
    && at < |chars|
    && if text == [] then chars[at] == ' ' else chars[at] == text[0] && StandsAt(chars, at + 1, text[1..])
  }

  lemma {:induction false} StandsMeans(chars: string, at: nat, text: string)
    requires StandsAt(chars, at, text)
    ensures at + |text| < |chars| && chars[at + |text|] == ' ' && chars[at..at + |text|] == text
    decreases |text|
  {
    if text != [] {
      StandsMeans(chars, at + 1, text[1..]);
      var end := at + |text|;
      assert chars[at..end] == [chars[at]] + chars[at + 1..end];
      assert text == [text[0]] + text[1..];
    }
  }

  lemma {:induction false} StandsInside(front: string, text: string, rest: string)
    ensures StandsAt(front + text + [' '] + rest, |front|, text)
    decreases |text|
  {
    var chars := front + text + [' '] + rest;
    if text == [] {
      assert chars[|front|] == ' ';
    } else {
      StandsInside(front + [text[0]], text[1..], rest);
      assert front + [text[0]] + text[1..] == front + text;
      assert chars[|front|] == text[0];
    }
  }

  /** The atom is read where its rendering stands. */
  ghost predicate ReadsBack(chars: string, at: nat, atom: Atom, negated: bool, maxAnyOfSize: nat) {
    && at < |chars| && !IsSpace(chars[at]) && (!negated ==> chars[at] != '-')
    && ReadAtom(chars, at, maxAnyOfSize) == Ok((atom, at + |RenderAtom(atom)|))
  }

  /** A scan over a stretch of text that nothing in it stops ends behind the stretch. */
  lemma FindsEnd(chars: string, from: nat, text: string, stop: char -> bool)
    requires from + |text| < |chars| && chars[from..from + |text|] == text
    requires forall k :: 0 <= k < |text| ==> !stop(text[k])
    requires stop(chars[from + |text|])
    ensures FindFrom(chars, from, stop) == from + |text|
  {
    forall j | from <= j < from + |text|
      ensures !stop(chars[j])
    {
      assert chars[j] == chars[from..from + |text|][j - from];
    }
    FindFromIs(chars, from, stop, from + |text|);
  }

  lemma TermReadBack(chars: string, at: nat, word: string, negated: bool, maxAnyOfSize: nat)
    requires NormalAtom(Term(word), negated, maxAnyOfSize) && StandsAt(chars, at, word)
    ensures ReadsBack(chars, at, Term(word), negated, maxAnyOfSize)
  {
    GrammarCharacters();
    StandsMeans(chars, at, word);
    assert chars[at] == word[0];
    FindsEnd(chars, at, word, EndsTerm);
  }

  /** Text between two brackets, standing at `at`. */
  lemma Bracketed(chars: string, at: nat, open: char, text: string, close: char)
    requires StandsAt(chars, at, [open] + text + [close])
    ensures at + 1 + |text| < |chars|
    ensures chars[at] == open && chars[at + 1 + |text|] == close
    ensures chars[at + 1..at + 1 + |text|] == text
  {
    var whole := [open] + text + [close];
    StandsMeans(chars, at, whole);
    assert whole[0] == open && whole[1 + |text|] == close;
    forall k | 0 <= k < |text|
      ensures chars[at + 1 + k] == text[k]
    {
      assert whole[1 + k] == text[k];
    }
  }

  lemma QuoteFound(chars: string, at: nat, text: string)
    requires StandsAt(chars, at, ['"'] + text + ['"']) && Avoids(text, '"')
    ensures at + 1 + |text| < |chars| && chars[at] == '"' && chars[at + 1..at + 1 + |text|] == text
    ensures FindFrom(chars, at + 1, IsQuote) == at + 1 + |text|
  {
    hide StandsAt, FindFrom;
    Bracketed(chars, at, '"', text, '"');
    FindsEnd(chars, at + 1, text, IsQuote);
  }

  lemma ReadPhrase(chars: string, at: nat, end: nat, negated: bool, maxAnyOfSize: nat)
    requires at < end < |chars| && chars[at] == '"' && FindFrom(chars, at + 1, IsQuote) == end
    requires Trim(chars[at + 1..end]) == chars[at + 1..end]
    ensures ReadsBack(chars, at, Phrase(chars[at + 1..end]), negated, maxAnyOfSize)
  {
    GrammarCharacters();
    hide IsSpace, Trim, FindFrom, StandsAt;
    assert |RenderAtom(Phrase(chars[at + 1..end]))| == end - at + 1;
  }

  lemma PhraseReadBack(chars: string, at: nat, text: string, negated: bool, maxAnyOfSize: nat)
    requires NormalAtom(Phrase(text), negated, maxAnyOfSize) && StandsAt(chars, at, RenderAtom(Phrase(text)))
    ensures ReadsBack(chars, at, Phrase(text), negated, maxAnyOfSize)
  {
    hide StandsAt, FindFrom, ReadsBack, Avoids, Trim;
    QuoteFound(chars, at, text);
    ReadPhrase(chars, at, at + 1 + |text|, negated, maxAnyOfSize);
  }

  lemma GroupText(members: seq<string>, negated: bool, maxAnyOfSize: nat)
    requires NormalAtom(AnyOf(members), negated, maxAnyOfSize)
    ensures 0 < |members| <= maxAnyOfSize
    ensures RenderAtom(AnyOf(members)) == ['('] + Join(members) + [')']
    ensures Avoids(Join(members), ')') && Members(Split(Join(members))) == members
  {
    JoinAvoids(members, ')');
    SplitJoin(members);
    NormalMembersKept(members);
  }

  lemma GroupFound(chars: string, at: nat, text: string)
    requires StandsAt(chars, at, ['('] + text + [')']) && Avoids(text, ')')
    ensures at + 1 + |text| < |chars| && chars[at] == '(' && chars[at + 1..at + 1 + |text|] == text
    ensures FindFrom(chars, at + 1, IsClose) == at + 1 + |text|
  {
    hide *;
    Bracketed(chars, at, '(', text, ')');
    CloseFound(chars, at + 1, text);
  }

  lemma CloseFound(chars: string, from: nat, text: string)
    requires from + |text| < |chars| && chars[from..from + |text|] == text && chars[from + |text|] == ')'
    requires Avoids(text, ')')
    ensures FindFrom(chars, from, IsClose) == from + |text|
  {
    FindsEnd(chars, from, text, IsClose);
  }

  lemma ReadGroup(chars: string, at: nat, end: nat, members: seq<string>, maxAnyOfSize: nat)
    requires at < end < |chars| && chars[at] == '(' && FindFrom(chars, at + 1, IsClose) == end
    requires 0 < |members| <= maxAnyOfSize && Members(Split(chars[at + 1..end])) == members
    ensures !IsSpace(chars[at]) && ReadAtom(chars, at, maxAnyOfSize) == Ok((AnyOf(members), end + 1))
  {
    GrammarCharacters();
    hide IsSpace, Split, Members, FindFrom;
  }

  lemma GroupReads(chars: string, at: nat, members: seq<string>, negated: bool, maxAnyOfSize: nat)
    requires at < |chars| && chars[at] == '(' && !IsSpace(chars[at]) && members != []
    requires ReadAtom(chars, at, maxAnyOfSize) == Ok((AnyOf(members), at + 1 + |Join(members)| + 1))
    ensures ReadsBack(chars, at, AnyOf(members), negated, maxAnyOfSize)
  {
    hide ReadAtom, IsSpace, Join;
  }

  lemma AnyOfReadBack(chars: string, at: nat, members: seq<string>, negated: bool, maxAnyOfSize: nat)
    requires members != [] && NormalAtom(AnyOf(members), negated, maxAnyOfSize)
    requires StandsAt(chars, at, RenderAtom(AnyOf(members)))
    ensures ReadsBack(chars, at, AnyOf(members), negated, maxAnyOfSize)
  {
    hide *;
    var text := Join(members);
    GroupText(members, negated, maxAnyOfSize);
    GroupFound(chars, at, text);
    ReadGroup(chars, at, at + 1 + |text|, members, maxAnyOfSize);
    GroupReads(chars, at, members, negated, maxAnyOfSize);
  }

  lemma AtomReadBack(chars: string, at: nat, atom: Atom, negated: bool, maxAnyOfSize: nat)
    requires NormalAtom(atom, negated, maxAnyOfSize) && StandsAt(chars, at, RenderAtom(atom))
    ensures ReadsBack(chars, at, atom, negated, maxAnyOfSize)
  {
    match atom {
      case Term(word) => TermReadBack(chars, at, word, negated, maxAnyOfSize);
      case Phrase(text) => PhraseReadBack(chars, at, text, negated, maxAnyOfSize);
      case AnyOf(members) => AnyOfReadBack(chars, at, members, negated, maxAnyOfSize);
    }
  }

  lemma NegatedRead(chars: string, at: nat, atom: Atom, maxAnyOfSize: nat)
    requires at < |chars| && chars[at] == '-' && ReadsBack(chars, at + 1, atom, true, maxAnyOfSize)
    ensures !IsSpace(chars[at])
    ensures ReadClause(chars, at, maxAnyOfSize) == Ok((Clause(true, atom), at + 1 + |RenderAtom(atom)|))
  {
    GrammarCharacters();
  }

  lemma PlainRead(chars: string, at: nat, atom: Atom, maxAnyOfSize: nat)
    requires ReadsBack(chars, at, atom, false, maxAnyOfSize)
    ensures at < |chars| && !IsSpace(chars[at])
    ensures ReadClause(chars, at, maxAnyOfSize) == Ok((Clause(false, atom), at + |RenderAtom(atom)|))
  {
  }

  /** The clause is read where its rendering stands. */
  ghost predicate ClauseReads(chars: string, at: nat, clause: Clause, maxAnyOfSize: nat) {
    && at < |chars| && !IsSpace(chars[at])
    && ReadClause(chars, at, maxAnyOfSize) == Ok((clause, at + |RenderClause(clause)|))
  }

  lemma ClauseReadBack(chars: string, at: nat, clause: Clause, maxAnyOfSize: nat)
    requires NormalAtom(clause.atom, clause.negated, maxAnyOfSize) && StandsAt(chars, at, RenderClause(clause))
    ensures ClauseReads(chars, at, clause, maxAnyOfSize)
  {
    hide *;
    if clause.negated {
      DashRendered(clause.atom);
      assert clause == Clause(true, clause.atom);
      NegatedReadBack(chars, at, clause.atom, maxAnyOfSize);
    } else {
      PlainRendered(clause.atom);
      assert clause == Clause(false, clause.atom);
      PlainReadBack(chars, at, clause.atom, maxAnyOfSize);
    }
  }

  lemma PlainRendered(atom: Atom)
    ensures RenderClause(Clause(false, atom)) == RenderAtom(atom)
  {
  }

  lemma PlainReadBack(chars: string, at: nat, atom: Atom, maxAnyOfSize: nat)
    requires NormalAtom(atom, false, maxAnyOfSize) && StandsAt(chars, at, RenderAtom(atom))
    ensures ClauseReads(chars, at, Clause(false, atom), maxAnyOfSize)
  {
    PlainRendered(atom);
    hide StandsAt, ReadsBack, NormalAtom, RenderAtom, RenderClause, ReadClause, IsSpace;
    AtomReadBack(chars, at, atom, false, maxAnyOfSize);
    PlainRead(chars, at, atom, maxAnyOfSize);
  }

  lemma DashStands(chars: string, at: nat, text: string)
    requires StandsAt(chars, at, ['-'] + text)
    ensures at < |chars| && chars[at] == '-' && StandsAt(chars, at + 1, text)
  {
    assert (['-'] + text)[1..] == text;
  }

  lemma DashRendered(atom: Atom)
    ensures RenderClause(Clause(true, atom)) == ['-'] + RenderAtom(atom)
  {
  }

  lemma NegatedReadBack(chars: string, at: nat, atom: Atom, maxAnyOfSize: nat)
    requires NormalAtom(atom, true, maxAnyOfSize) && StandsAt(chars, at, ['-'] + RenderAtom(atom))
    ensures ClauseReads(chars, at, Clause(true, atom), maxAnyOfSize)
  {
    DashRendered(atom);
    hide StandsAt, ReadsBack, NormalAtom, RenderAtom, RenderClause, ReadClause, IsSpace;
    DashStands(chars, at, RenderAtom(atom));
    AtomReadBack(chars, at + 1, atom, true, maxAnyOfSize);
    NegatedRead(chars, at, atom, maxAnyOfSize);
  }

  lemma LeadSkipped(chars: string, before: nat, at: nat)
    requires before <= at <= |chars| && at <= before + 1 && (before < at ==> chars[before] == ' ')
    requires at < |chars| ==> !IsSpace(chars[at])
    ensures FindFrom(chars, before, NotSpace) == at
  {
    GrammarCharacters();
  }

  lemma EngineStep(chars: string, before: nat, at: nat, clause: Clause, next: nat, maxAnyOfSize: nat)
    requires before <= at < |chars| && FindFrom(chars, before, NotSpace) == at
    requires ReadClause(chars, at, maxAnyOfSize) == Ok((clause, next))
    ensures EngineFrom(chars, before, maxAnyOfSize) == Prepend([clause], EngineFrom(chars, next, maxAnyOfSize))
  {
  }

  /** The rendering of `clauses` fills the text from `at` on. */
  ghost predicate LaidOut(chars: string, at: nat, clauses: seq<Clause>)
    decreases |clauses|
  {
    if clauses == [] then at == |chars|
    else
      && StandsAt(chars, at, RenderClause(clauses[0]))
      && LaidOut(chars, at + |RenderClause(clauses[0])| + 1, clauses[1..])
  }

  lemma {:induction false} RenderLaysOut(front: string, clauses: seq<Clause>)
    ensures LaidOut(front + Render(clauses), |front|, clauses)
    decreases |clauses|
  {
    if clauses == [] {
      assert front + [] == front;
    } else {
      var text, rest := RenderClause(clauses[0]), Render(clauses[1..]);
      var front' := front + text + [' '];
      assert front + Render(clauses) == front' + rest;
      StandsInside(front, text, rest);
      RenderLaysOut(front', clauses[1..]);
    }
  }

  lemma ReadBackOne(chars: string, before: nat, at: nat, clause: Clause, maxAnyOfSize: nat)
    requires NormalAtom(clause.atom, clause.negated, maxAnyOfSize) && StandsAt(chars, at, RenderClause(clause))
    requires before <= at <= before + 1 && at <= |chars| && (before < at ==> chars[before] == ' ')
    ensures var next := at + |RenderClause(clause)|;
            && next < |chars| && chars[next] == ' '
            && EngineFrom(chars, before, maxAnyOfSize) == Prepend([clause], EngineFrom(chars, next, maxAnyOfSize))
  {
    hide StandsAt, NormalAtom, RenderClause, ReadClause, EngineFrom, Prepend, FindFrom, IsSpace;
    StandsMeans(chars, at, RenderClause(clause));
    ClauseReadBack(chars, at, clause, maxAnyOfSize);
    LeadSkipped(chars, before, at);
    EngineStep(chars, before, at, clause, at + |RenderClause(clause)|, maxAnyOfSize);
  }

  lemma ReadBackNone(chars: string, before: nat, at: nat, maxAnyOfSize: nat)
    requires LaidOut(chars, at, [])
    requires before <= at <= before + 1 && (before < at ==> chars[before] == ' ')
    ensures EngineFrom(chars, before, maxAnyOfSize) == Ok([])
  {
    LeadSkipped(chars, before, at);
  }

  lemma ReadBackRest(chars: string, at: nat, clauses: seq<Clause>, maxAnyOfSize: nat)
    requires clauses != [] && Normal(clauses, maxAnyOfSize) && LaidOut(chars, at, clauses)
    ensures NormalAtom(clauses[0].atom, clauses[0].negated, maxAnyOfSize) && Normal(clauses[1..], maxAnyOfSize)
    ensures StandsAt(chars, at, RenderClause(clauses[0]))
    ensures LaidOut(chars, at + |RenderClause(clauses[0])| + 1, clauses[1..])
  {
  }

  lemma PrependOne(clause: Clause, rest: seq<Clause>)
    ensures Prepend([clause], Ok(rest)) == Ok([clause] + rest)
  {
  }

  /** A normal clause list that fills the rest of a text, behind at most one space, is read back. */
  lemma {:induction false} ReadBack(chars: string, before: nat, at: nat, clauses: seq<Clause>, maxAnyOfSize: nat)
    requires Normal(clauses, maxAnyOfSize) && LaidOut(chars, at, clauses)
    requires before <= at <= before + 1 && at <= |chars| && (before < at ==> chars[before] == ' ')
    ensures EngineFrom(chars, before, maxAnyOfSize) == Ok(clauses)
    decreases |clauses|
  {
    hide *;
    if clauses == [] {
      ReadBackNone(chars, before, at, maxAnyOfSize);
    } else {
      var clause, rest := clauses[0], clauses[1..];
      var next := at + |RenderClause(clause)|;
      ReadBackRest(chars, at, clauses, maxAnyOfSize);
      ReadBackOne(chars, before, at, clause, maxAnyOfSize);
      ReadBack(chars, next, next + 1, rest, maxAnyOfSize);
      PrependOne(clause, rest);
      assert [clause] + rest == clauses;
    }
  }

  /** Exactly the normal clause lists survive being written and read. */
  lemma RenderThenParse(clauses: seq<Clause>, maxAnyOfSize: nat)
    ensures EngineFrom(Render(clauses), 0, maxAnyOfSize) == Ok(clauses) <==> Normal(clauses, maxAnyOfSize)
  {
    AcceptedIsNormal(Render(clauses), 0, maxAnyOfSize);
    if Normal(clauses, maxAnyOfSize) {
      RenderLaysOut([], clauses);
      assert [] + Render(clauses) == Render(clauses);
      ReadBack(Render(clauses), 0, 0, clauses, maxAnyOfSize);
    }
  }

  /** Writing the clauses of an accepted text gives a text with the same clauses. */
  lemma ParseRenderParse(input: string, maxAnyOfSize: nat)
    ensures var r := EngineFrom(input, 0, maxAnyOfSize);
            r.Ok? ==> EngineFrom(Render(r.value), 0, maxAnyOfSize) == r
  {
    AcceptedIsNormal(input, 0, maxAnyOfSize);
    var r := EngineFrom(input, 0, maxAnyOfSize);
    if r.Ok? {
      RenderThenParse(r.value, maxAnyOfSize);
    }
  }
}
