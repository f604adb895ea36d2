/** The candidate index: postings that change their representation as they grow, and what they
    hold, told apart from how they hold it.
  */
module CandidateIndexing {
  import opened Orders
  import opened Wrappers

  const INLINE_CAP := 8
  const ROARING_THRESHOLD := 256

  /** A posting in one of its tiers: a short array in place, a list, or a compressed set, here the
      ascending list of its elements. */
  datatype Posting =
    | Inline(ids: seq<nat>, len: nat)
    | Heap(list: seq<nat>)
    | Roaring(elements: seq<nat>)
  {
    /** The ids in the order iteration visits them. */
    function Ids(): seq<nat>
      requires Inline? ==> len <= |ids|
    {
      match this
      case Inline(ids, len) => ids[..len]
      case Heap(list) => list
      case Roaring(elements) => elements
    }
  }

  function Zeros(n: nat): seq<nat> { seq(n, _ => 0) }

  /** The posting that a history of insertions leads to. */
  function PostingOf(history: seq<nat>): (p: Posting)
    ensures p.Inline? ==> p.len <= |p.ids|
  {
    if |history| <= INLINE_CAP then Inline(history + Zeros(INLINE_CAP - |history|), |history|)
    else if |history| <= ROARING_THRESHOLD then Heap(history)
    else Roaring(SortDedup(history, NatLess))
  }

  method NewPosting(first: nat) returns (p: Posting)
    ensures p == PostingOf([first])
  {
    var ids := Zeros(INLINE_CAP);
    ids := ids[0 := first];
    assert ids == [first] + Zeros(INLINE_CAP - 1);
    p := Inline(ids, 1);
  }

  /** Adding one id, with the promotion when a tier is full. */
  method Push(p: Posting, id: nat, ghost history: seq<nat>) returns (p': Posting)
    requires p == PostingOf(history)
    ensures p' == PostingOf(history + [id])
  {
    match p {
      case Inline(ids, len) =>
        if len < INLINE_CAP {
          assert ids[len := id] == history + [id] + Zeros(INLINE_CAP - |history| - 1);
          p' := Inline(ids[len := id], len + 1);
        } else {
          assert history + Zeros(0) == history;
          p' := Heap(ids + [id]);
        }
      case Heap(list) =>
        var grown := list + [id];
        if |grown| > ROARING_THRESHOLD {
          var elements := Compress(grown);
          p' := Roaring(elements);
        } else {
          p' := Heap(grown);
        }
      case Roaring(elements) =>
        InsertIsLast(history, id);
        p' := Roaring(InsertNew(id, elements, NatLess));
    }
  }

  lemma InsertIsLast(history: seq<nat>, id: nat)
    ensures InsertNew(id, SortDedup(history, NatLess), NatLess) == SortDedup(history + [id], NatLess)
  {
    NatOrder();
    SortDedupListing(history, NatLess);
    SortDedupListing(history + [id], NatLess);
    var grown := InsertNew(id, SortDedup(history, NatLess), NatLess);
    InsertNewAscending(id, SortDedup(history, NatLess), NatLess);
    forall x ensures x in Elements(grown) <==> x in Elements(SortDedup(history + [id], NatLess)) {
      InsertNewMember(id, SortDedup(history, NatLess), NatLess, x);
      SortDedupMember(history, NatLess, x);
      SortDedupMember(history + [id], NatLess, x);
    }
    AscendingUnique(grown, SortDedup(history + [id], NatLess), NatLess);
  }

  /** Moving a list into the compressed set, one id after the other. */
  method Compress(list: seq<nat>) returns (elements: seq<nat>)
    ensures elements == SortDedup(list, NatLess)
  {
    elements := [];
    for n := 0 to |list|
      invariant elements == SortDedup(list[..n], NatLess)
    {
      InsertIsLast(list[..n], list[n]);
      assert list[..n + 1] == list[..n] + [list[n]];
      elements := InsertNew(list[n], elements, NatLess);
    }
    assert list[..|list|] == list;
  }

  /** Ids inserted in increasing order come back in that order, through both promotions; ids inserted
      in any order come back as the set they form. */
  lemma PostingHolds(history: seq<nat>)
    ensures Ascending(history, NatLess) ==> PostingOf(history).Ids() == history
    ensures forall x :: x in PostingOf(history).Ids() <==> x in history
  {
    NatOrder();
    if |history| <= INLINE_CAP {
      assert (history + Zeros(INLINE_CAP - |history|))[..|history|] == history;
    } else if |history| > ROARING_THRESHOLD {
      forall x ensures x in SortDedup(history, NatLess) <==> x in history { SortDedupMember(history, NatLess, x); }
      if Ascending(history, NatLess) { SortDedupFixed(history, NatLess); }
    }
  }

  /** The tier is decided by the number of ids alone. */
  lemma TierByCount(history: seq<nat>)
    requires Ascending(history, NatLess)
    ensures |PostingOf(history).Ids()| == |history|
    ensures PostingOf(history).Inline? <==> |history| <= INLINE_CAP
    ensures PostingOf(history).Heap? <==> INLINE_CAP < |history| <= ROARING_THRESHOLD
    ensures PostingOf(history).Roaring? <==> ROARING_THRESHOLD < |history|
  {
    PostingHolds(history);
  }

  // ---- iteration ----

  /** The state after a callback has seen `ids` from state `s`. */
  function Fold<S>(f: (S, nat) -> (S, bool), s: S, ids: seq<nat>): S {
    if ids == [] then s else f(Fold(f, s, ids[..|ids| - 1]), ids[|ids| - 1]).0
  }

  /** Whether the callback wants more after `ids[k]`, having seen the ids before it. */
  predicate GoesOn<S>(f: (S, nat) -> (S, bool), s: S, ids: seq<nat>, k: nat)
    requires k < |ids|
  {
    f(Fold(f, s, ids[..k]), ids[k]).1
  }

  /** `ids` from the front, through the first one the callback refuses to go past. */
  ghost predicate ThroughRefusal<S>(f: (S, nat) -> (S, bool), s: S, ids: seq<nat>, visited: nat) {
    && visited <= |ids|
    && (forall k :: 0 <= k < visited - 1 ==> GoesOn(f, s, ids, k))
    && (visited < |ids| ==> visited > 0 && !GoesOn(f, s, ids, visited - 1))
  }

  /** Visit the ids in order until the callback says no. */
  method ForEachWhile<S>(p: Posting, s0: S, f: (S, nat) -> (S, bool)) returns (s: S, visited: nat)
    requires p.Inline? ==> p.len <= |p.ids|
    ensures ThroughRefusal(f, s0, p.Ids(), visited)
    ensures s == Fold(f, s0, p.Ids()[..visited])
  {
    var ids := p.Ids();
    s, visited := s0, 0;
    while visited < |ids|
      invariant visited <= |ids| && s == Fold(f, s0, ids[..visited])
      invariant forall k :: 0 <= k < visited ==> GoesOn(f, s0, ids, k)
    {
      assert ids[..visited + 1][..visited] == ids[..visited];
      var (next, more) := f(s, ids[visited]);
      s, visited := next, visited + 1;
      if !more {
        break;
      }
    }
  }

  // ---- the index ----

  /** Everything inserted so far under each signature, in order. */
  type History<Sig> = map<Sig, seq<nat>>

  function Under<Sig(==)>(history: History<Sig>, sig: Sig): seq<nat> {
    if sig in history then history[sig] else []
  }

  function Recorded<Sig(==)>(history: History<Sig>, sig: Sig, id: nat): History<Sig> {
    history[sig := Under(history, sig) + [id]]
  }

  ghost predicate Represents<Sig(!new)>(postings: map<Sig, Posting>, history: History<Sig>) {
    && postings.Keys == history.Keys
    && forall sig :: sig in history ==> history[sig] != [] && postings[sig] == PostingOf(history[sig])
  }

  lemma RecordedRepresents<Sig(!new)>(postings: map<Sig, Posting>, history: History<Sig>, sig: Sig, id: nat, p: Posting)
    requires Represents(postings, history) && p == PostingOf(Under(history, sig) + [id])
    ensures Represents(postings[sig := p], Recorded(history, sig, id))
  {
    hide PostingOf;
    var postings', history' := postings[sig := p], Recorded(history, sig, id);
    forall s ensures s in postings' <==> s in history' {
      assert s in postings.Keys <==> s in history.Keys;
    }
    assert postings'.Keys == history'.Keys;
    forall s | s in history' ensures history'[s] != [] && postings'[s] == PostingOf(history'[s]) { }
  }

  /** Append an id under a signature, which may be new. */
  method InsertInto<Sig(==,!new)>(postings: map<Sig, Posting>, sig: Sig, id: nat, ghost history: History<Sig>)
    returns (postings': map<Sig, Posting>)
    requires Represents(postings, history)
    ensures Represents(postings', Recorded(history, sig, id))
  {
    hide PostingOf;
    var p;
    if sig in postings {
      p := Push(postings[sig], id, history[sig]);
    } else {
      p := NewPosting(id);
      assert [] + [id] == [id];
    }
    RecordedRepresents(postings, history, sig, id, p);
    postings' := postings[sig := p];
  }

  class CandidateIndex<Sig(==,!new)> {
    var postings: map<Sig, Posting>
    ghost var history: History<Sig>

    ghost predicate Valid()
      reads this
    {
      Represents(postings, history)
    }

    constructor ()
      ensures Valid() && history == map[]
    {
      postings, history := map[], map[];
    }

    method Insert(sig: Sig, id: nat)
      requires Valid()
      modifies this
      ensures Valid() && history == Recorded(old(history), sig, id)
    {
      postings := InsertInto(postings, sig, id, history);
      history := Recorded(history, sig, id);
    }

    /** The ids under a signature, in the order they were inserted when that order was increasing. */
    method Get(sig: Sig) returns (ids: Option<seq<nat>>)
      requires Valid()
      ensures ids.None? <==> sig !in history
      ensures ids.Some? && Ascending(history[sig], NatLess) ==> ids.value == history[sig]
      ensures ids.Some? ==> forall x :: x in ids.value <==> x in history[sig]
    {
      if sig !in postings {
        return None;
      }
      PostingHolds(history[sig]);
      return Some(postings[sig].Ids());
    }
  }
}
