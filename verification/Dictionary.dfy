/** The feature dictionary: names and dense ids, query frequencies, and the common mask that is
    given out once.
  */
module Dictionary {
  import opened Wrappers

  type FeatureId = nat

  datatype FeatureKind = Year | Brand | Entity | Category | Flag | Generic

  const NO_MASK_BIT: nat := 255
  const MASK_BITS: nat := 64
  const MAX_FREQ: nat := 0xFFFF_FFFF

  datatype State = State(
    ids: map<string, FeatureId>,
    names: seq<string>,
    kinds: seq<FeatureKind>,
    freq: seq<nat>,
    maskBit: seq<nat>,
    finalized: bool)

  const EMPTY: State := State(map[], [], [], [], [], false)

  // ---- the steps ----

  function Interned(s: State, name: string, kind: FeatureKind): State {
    if name in s.ids then s
    else State(s.ids[name := |s.names|], s.names + [name], s.kinds + [kind], s.freq + [0], s.maskBit + [NO_MASK_BIT],
               s.finalized)
  }

  function Bumped(s: State, id: FeatureId): State
    requires id < |s.freq|
  {
    s.(freq := s.freq[id := if s.freq[id] + 1 > MAX_FREQ then MAX_FREQ else s.freq[id] + 1])
  }

  /** All ids, by falling frequency. Ties may come in any order. */
  ghost predicate IsRanking(order: seq<FeatureId>, freq: seq<nat>) {
    && |order| == |freq|
    && (forall k :: 0 <= k < |order| ==> order[k] < |freq|)
    && (forall j, k :: 0 <= j < k < |order| ==> order[j] != order[k] && freq[order[j]] >= freq[order[k]])
    && (forall i :: 0 <= i < |freq| ==> i in order)
  }

  /** The first 64 of the ranking get the bits 0, 1, 2, … and the others get none. */
  ghost predicate MaskOf(maskBit: seq<nat>, order: seq<FeatureId>) {
    && |maskBit| == |order|
    && forall k :: 0 <= k < |order| && order[k] < |maskBit| ==>
        maskBit[order[k]] == if k < MASK_BITS then k else NO_MASK_BIT
  }

  datatype Event =
    | Intern(name: string, kind: FeatureKind)
    | Bump(id: FeatureId)
    | Finalize(order: seq<FeatureId>, mask: seq<nat>)

  ghost predicate Allowed(s: State, e: Event) {
    match e
    case Intern(_, _) => true
    case Bump(id) => id < |s.freq|
    case Finalize(order, mask) => IsRanking(order, s.freq) && MaskOf(mask, order)
  }

  ghost function Apply(s: State, e: Event): State
    requires Allowed(s, e)
  {
    match e
    case Intern(name, kind) => Interned(s, name, kind)
    case Bump(id) => Bumped(s, id)
    case Finalize(order, mask) => if s.finalized then s else s.(maskBit := mask, finalized := true)
  }

  ghost predicate IsRun(s: State, events: seq<Event>)
    decreases |events|
  {
    events == [] || (Allowed(s, events[0]) && IsRun(Apply(s, events[0]), events[1..]))
  }

  ghost function Final(s: State, events: seq<Event>): State
    requires IsRun(s, events)
    decreases |events|
  {
    if events == [] then s else Final(Apply(s, events[0]), events[1..])
  }

  // ---- the invariant ----

  /** Names and dense ids are in bijection. */
  ghost predicate Bijective(s: State) {
    && |s.names| == |s.kinds| == |s.freq| == |s.maskBit|
    && (forall name :: name in s.ids ==> s.ids[name] < |s.names| && s.names[s.ids[name]] == name)
    && (forall i :: 0 <= i < |s.names| ==> s.names[i] in s.ids && s.ids[s.names[i]] == i)
  }

  /** No two features share a bit, and nobody has one before the mask is given out. */
  ghost predicate BitsApart(maskBit: seq<nat>) {
    && (forall i :: 0 <= i < |maskBit| ==> maskBit[i] < MASK_BITS || maskBit[i] == NO_MASK_BIT)
    && (forall i, j :: 0 <= i < j < |maskBit| && maskBit[i] != NO_MASK_BIT ==> maskBit[i] != maskBit[j])
  }

  ghost predicate Valid(s: State) {
    && Bijective(s) && BitsApart(s.maskBit)
    && (!s.finalized ==> forall i :: 0 <= i < |s.maskBit| ==> s.maskBit[i] == NO_MASK_BIT)
  }

  /** Everything in `s` is still there in `s'`, and no bit that was final has moved. */
  ghost predicate Extends(s: State, s': State) {
    && s.names <= s'.names && s.kinds <= s'.kinds && |s.maskBit| <= |s'.maskBit|
    && (s.finalized ==> s'.finalized && s.maskBit <= s'.maskBit)
    && (s.finalized ==> forall i :: |s.maskBit| <= i < |s'.maskBit| ==> s'.maskBit[i] == NO_MASK_BIT)
  }

  lemma InternValid(s: State, name: string, kind: FeatureKind)
    requires Valid(s)
    ensures Valid(Interned(s, name, kind)) && Extends(s, Interned(s, name, kind))
  {
  }

  lemma BumpValid(s: State, id: FeatureId)
    requires Valid(s) && id < |s.freq|
    ensures Valid(Bumped(s, id)) && Extends(s, Bumped(s, id))
  {
  }

  ghost predicate GivenOut(maskBit: seq<nat>, b: nat) {
    exists i :: 0 <= i < |maskBit| && maskBit[i] == b
  }

  /** The mask of a ranking: distinct bits, on as many features as there are bits for, and no more frequent
      feature is left without one. */
  lemma MaskFacts(freq: seq<nat>, order: seq<FeatureId>, maskBit: seq<nat>)
    requires IsRanking(order, freq) && MaskOf(maskBit, order)
    ensures BitsApart(maskBit)
    ensures forall b :: 0 <= b < MASK_BITS && b < |freq| ==> GivenOut(maskBit, b)
    ensures forall i :: 0 <= i < |maskBit| && maskBit[i] != NO_MASK_BIT ==> maskBit[i] < |freq|
    ensures forall i, j ::
              0 <= i < |maskBit| && 0 <= j < |maskBit| && maskBit[i] != NO_MASK_BIT && maskBit[j] == NO_MASK_BIT ==>
              freq[i] >= freq[j]
  {
    forall i | 0 <= i < |maskBit|
      ensures exists k :: 0 <= k < |order| && order[k] == i && maskBit[i] == if k < MASK_BITS then k else NO_MASK_BIT
    {
      assert i in order;
      var k :| 0 <= k < |order| && order[k] == i;
    }
    forall b | 0 <= b < MASK_BITS && b < |freq| ensures GivenOut(maskBit, b) {
      assert maskBit[order[b]] == b;
    }
  }

  lemma StepValid(s: State, e: Event)
    requires Valid(s) && Allowed(s, e)
    ensures Valid(Apply(s, e)) && Extends(s, Apply(s, e))
  {
    match e {
      case Intern(name, kind) => InternValid(s, name, kind);
      case Bump(id) => BumpValid(s, id);
      case Finalize(order, mask) =>
        if !s.finalized {
          MaskFacts(s.freq, order, mask);
          hide IsRanking, MaskOf;
        }
    }
  }

  lemma ExtendsJoin(a: State, b: State, c: State)
    requires Extends(a, b) && Extends(b, c)
    ensures Extends(a, c)
  {
    if a.finalized {
      forall i | |a.maskBit| <= i < |c.maskBit| ensures c.maskBit[i] == NO_MASK_BIT {
        if i < |b.maskBit| { assert b.maskBit[i] == c.maskBit[i]; }
      }
    }
  }

  /** Over every run: names and ids stay in bijection, bits stay distinct, and from the moment the mask is
      final no step takes a name away, moves a bit or gives out another. */
  lemma {:induction false} RunKeeps(s: State, events: seq<Event>)
    requires Valid(s) && IsRun(s, events)
    ensures Valid(Final(s, events)) && Extends(s, Final(s, events))
    decreases |events|
  {
    if events == [] {
      ExtendsSelf(s);
    } else {
      StepValid(s, events[0]);
      var next := Apply(s, events[0]);
      hide Valid, Extends, Apply;
      RunKeeps(next, events[1..]);
      ExtendsJoin(s, next, Final(next, events[1..]));
    }
  }

  lemma ExtendsSelf(s: State)
    ensures Extends(s, s)
  {
  }

  /** The features with a bit. */
  ghost function HotSet(s: State): set<FeatureId> {
    set i | 0 <= i < |s.maskBit| && s.maskBit[i] != NO_MASK_BIT :: i
  }

  /** A feature that was hot for a plan is hot for every later title. */
  lemma HotStaysHot(s: State, events: seq<Event>)
    requires Valid(s) && IsRun(s, events)
    ensures HotSet(s) <= HotSet(Final(s, events))
  {
    RunKeeps(s, events);
    var s' := Final(s, events);
    hide Final, IsRun;
    if s.finalized {
      forall i | i in HotSet(s) ensures i in HotSet(s') { assert s.maskBit[i] == s'.maskBit[i]; }
    }
  }

  // ---- the dictionary ----

  class Dict {
    var ids: map<string, FeatureId>
    var names: seq<string>
    var kinds: seq<FeatureKind>
    var freq: seq<nat>
    var maskBit: seq<nat>
    var finalized: bool

    ghost function View(): State
      reads this
    {
      State(ids, names, kinds, freq, maskBit, finalized)
    }

    constructor ()
      ensures View() == EMPTY && Valid(View())
    {
      ids, names, kinds, freq, maskBit, finalized := map[], [], [], [], [], false;
    }

    method Intern(name: string, kind: FeatureKind) returns (id: FeatureId)
      requires Valid(View())
      modifies this
      ensures View() == Interned(old(View()), name, kind) && Valid(View())
      ensures id < |names| && names[id] == name && name in ids && ids[name] == id
    {
      InternValid(View(), name, kind);
      if name in ids {
        return ids[name];
      }
      id := |names|;
      ids := ids[name := id];
      names, kinds, freq, maskBit := names + [name], kinds + [kind], freq + [0], maskBit + [NO_MASK_BIT];
    }

    method BumpFreq(id: FeatureId)
      requires Valid(View()) && id < |freq|
      modifies this
      ensures View() == Bumped(old(View()), id) && Valid(View())
    {
      BumpValid(View(), id);
      freq := freq[id := if freq[id] + 1 > MAX_FREQ then MAX_FREQ else freq[id] + 1];
    }

    /** Give out the mask, the first time only. */
    method FinalizeMask()
      requires Valid(View())
      modifies this
      ensures Valid(View()) && finalized
      ensures old(finalized) ==> View() == old(View())
      ensures !old(finalized) ==> View() == old(View()).(maskBit := maskBit, finalized := true)
      ensures !old(finalized) ==> exists order :: IsRanking(order, freq) && MaskOf(maskBit, order)
    {
      if finalized {
        return;
      }
      var order := RankByFrequency(freq);
      var bits := GiveBits(order);
      MaskFacts(freq, order, bits);
      hide IsRanking, MaskOf;
      maskBit := bits;
      finalized := true;
    }

    static method GiveBits(order: seq<FeatureId>) returns (bits: seq<nat>)
      requires forall k :: 0 <= k < |order| ==> order[k] < |order|
      requires forall j, k :: 0 <= j < k < |order| ==> order[j] != order[k]
      ensures MaskOf(bits, order)
    {
      bits := seq(|order|, _ => NO_MASK_BIT);
      var top := if |order| < MASK_BITS then |order| else MASK_BITS;
      for bit := 0 to top
        invariant |bits| == |order|
        invariant forall k :: 0 <= k < |order| ==> bits[order[k]] == if k < bit then k else NO_MASK_BIT
      {
        bits := bits[order[bit] := bit];
      }
    }

    /** Which feature has each bit. */
    method MaskInverse() returns (inverse: seq<Option<FeatureId>>)
      requires Valid(View())
      ensures |inverse| == MASK_BITS
      ensures forall b, i :: 0 <= b < MASK_BITS && 0 <= i < |maskBit| ==> (inverse[b] == Some(i) <==> maskBit[i] == b)
      ensures forall b :: 0 <= b < MASK_BITS && inverse[b].Some? ==> inverse[b].value < |maskBit|
    {
      inverse := seq(MASK_BITS, _ => None);
      for id := 0 to |maskBit|
        invariant |inverse| == MASK_BITS
        invariant forall b :: 0 <= b < MASK_BITS && inverse[b].Some? ==>
                    inverse[b].value < id && maskBit[inverse[b].value] == b
        invariant forall i :: 0 <= i < id && maskBit[i] != NO_MASK_BIT ==> inverse[maskBit[i]] == Some(i)
      {
        if maskBit[id] != NO_MASK_BIT {
          inverse := inverse[maskBit[id] := Some(id)];
        }
      }
    }
  }

  // ---- ranking ----

  ghost predicate Ranks(order: seq<FeatureId>, freq: seq<nat>, n: nat)
    requires n <= |freq|
  {
    && |order| == n
    && (forall k :: 0 <= k < n ==> order[k] < n)
    && (forall j, k :: 0 <= j < k < n ==> order[j] != order[k] && freq[order[j]] >= freq[order[k]])
    && (forall i :: 0 <= i < n ==> i in order)
  }

  /** Insertion by falling frequency. */
  method RankByFrequency(freq: seq<nat>) returns (order: seq<FeatureId>)
    ensures IsRanking(order, freq)
  {
    order := [];
    for n := 0 to |freq|
      invariant Ranks(order, freq, n)
    {
      var k := 0;
      while k < |order| && freq[order[k]] >= freq[n]
        invariant k <= |order|
        invariant forall j :: 0 <= j < k ==> freq[order[j]] >= freq[n]
      {
        k := k + 1;
      }
      var grown := order[..k] + [n] + order[k..];
      InsertRanks(order, freq, n, k, grown);
      order := grown;
    }
  }

  lemma InsertedAt(order: seq<FeatureId>, n: nat, k: nat, grown: seq<FeatureId>)
    requires k <= |order| && grown == order[..k] + [n] + order[k..]
    ensures |grown| == |order| + 1
    ensures forall j :: 0 <= j < |grown| ==> grown[j] == if j < k then order[j] else if j == k then n else order[j - 1]
  {
  }

  /** Everything from the place on is less frequent. */
  lemma TailIsBelow(order: seq<FeatureId>, freq: seq<nat>, n: nat, k: nat, j: nat)
    requires n < |freq| && Ranks(order, freq, n) && k <= j < |order| && freq[order[k]] < freq[n]
    ensures freq[order[j]] < freq[n]
  {
  }

  lemma InsertOrders(order: seq<FeatureId>, freq: seq<nat>, n: nat, k: nat, grown: seq<FeatureId>, i: nat, j: nat)
    requires n < |freq| && Ranks(order, freq, n) && k <= |order| && grown == order[..k] + [n] + order[k..]
    requires forall j :: 0 <= j < k ==> freq[order[j]] >= freq[n]
    requires k < |order| ==> freq[order[k]] < freq[n]
    requires i < j < |grown|
    ensures grown[i] < n + 1 && grown[j] < n + 1 && grown[i] != grown[j] && freq[grown[i]] >= freq[grown[j]]
  {
    InsertedAt(order, n, k, grown);
    if i == k { TailIsBelow(order, freq, n, k, j - 1); }
  }

  lemma InsertHolds(order: seq<FeatureId>, n: nat, k: nat, grown: seq<FeatureId>, i: FeatureId)
    requires k <= |order| && grown == order[..k] + [n] + order[k..] && (i == n || i in order)
    ensures i in grown
  {
    InsertedAt(order, n, k, grown);
    if i == n {
      assert grown[k] == n;
    } else {
      var j :| 0 <= j < |order| && order[j] == i;
      assert grown[if j < k then j else j + 1] == i;
    }
  }

  lemma InsertRanks(order: seq<FeatureId>, freq: seq<nat>, n: nat, k: nat, grown: seq<FeatureId>)
    requires n < |freq| && Ranks(order, freq, n) && k <= |order| && grown == order[..k] + [n] + order[k..]
    requires forall j :: 0 <= j < k ==> freq[order[j]] >= freq[n]
    requires k < |order| ==> freq[order[k]] < freq[n]
    ensures Ranks(grown, freq, n + 1)
  {
    InsertedAt(order, n, k, grown);
    forall j | 0 <= j < n + 1 ensures grown[j] < n + 1 { }
    forall i, j | 0 <= i < j < n + 1 ensures grown[i] != grown[j] && freq[grown[i]] >= freq[grown[j]] {
      InsertOrders(order, freq, n, k, grown, i, j);
    }
    forall i | 0 <= i < n + 1 ensures i in grown { InsertHolds(order, n, k, grown, i); }
  }
}
