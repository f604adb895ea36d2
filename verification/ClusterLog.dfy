/** The coordinator's durable log as a machine over its steps: appends that succeed or fail in any
    of the ways a file can fail, checkpoints that stop at any step, crashes and reopenings.
  */
module ClusterLog {
  import opened Lists
  import opened Wrappers

  const MAX_POSITION: nat := 0xFFFF_FFFF_FFFF_FFFF

  datatype Record<M> = Record(pos: nat, mutation: M)

  /** The log's file: complete records, then the bytes of an incomplete final write. */
  datatype File<M> = File(records: seq<Record<M>>, torn: nat)

  datatype Handle =
    | Closed
    | Open(nextSeq: nat, disabled: bool, repaired: nat)

  /** What a rename has put away before the directory was synced: a power loss may bring it back. It
      remembers how many appends had been acknowledged by then. */
  datatype Behind<M> = Behind(file: Option<File<M>>, acknowledged: nat)

  /** The file, what may come back in its place, the process's handle on it, the committed cursor, and the
      history of appends. */
  datatype State<M> = State(
    file: Option<File<M>>,
    behind: seq<Behind<M>>,
    handle: Handle,
    cursor: nat,
    acked: seq<Record<M>>,
    failed: seq<Record<M>>)

  // ---- steps and their outcomes ----

  datatype AppendOutcome =
    | Written
    | NothingWritten
    | PartWritten(bytes: nat)
    | WrittenUnconfirmed

  /** A rename that reports failure may have taken effect all the same. */
  datatype CheckpointOutcome =
    | ReadFails
    | BuildFails
    | RenameFails(tookEffect: bool)
    | SyncFails
    | HandleFails
    | Replaced

  datatype OpenOutcome = OpenReadFails | RepairFails(truncated: bool) | CreatedUnsynced | OpenFails | Opened

  datatype Event<M> =
    | Append(mutation: M, appendOutcome: AppendOutcome)
    | Checkpoint(upTo: nat, checkpointOutcome: CheckpointOutcome)
    | Commit(newCursor: nat)
    | Crash(kept: nat, tornAfter: nat, back: Option<nat>)
    | Reopen(floor: nat, refuseMissing: bool, openOutcome: OpenOutcome)

  function After<M>(records: seq<Record<M>>, from: nat): seq<Record<M>> {
    Filter((r: Record<M>) => r.pos > from, records)
  }

  function MaxPos<M>(records: seq<Record<M>>): nat {
    if records == [] then 0
    else
      var rest := MaxPos(records[..|records| - 1]);
      if records[|records| - 1].pos > rest then records[|records| - 1].pos else rest
  }

  /** The greater of the floor and the last position in the file. */
  function Top<M>(s: State<M>, floor: nat): nat {
    var last := MaxPos(Records(s));
    if last > floor then last else floor
  }

  function ApplyAppend<M>(s: State<M>, m: M, outcome: AppendOutcome): State<M>
    requires s.handle.Open? && s.file.Some?
  {
    var seq_ := s.handle.nextSeq;
    if seq_ + 1 > MAX_POSITION then s
    else
      var record := Record(seq_, m);
      var file := s.file.value;
      var next := s.handle.(nextSeq := seq_ + 1);
      if s.handle.disabled then s.(handle := next, failed := s.failed + [record])
      else
        match outcome
        case Written => s.(file := Some(file.(records := file.records + [record])), handle := next,
                           acked := s.acked + [record])
        case NothingWritten => s.(handle := next.(disabled := true), failed := s.failed + [record])
        case PartWritten(bytes) =>
          s.(file := Some(file.(torn := bytes)), handle := next.(disabled := true), failed := s.failed + [record])
        case WrittenUnconfirmed =>
          s.(file := Some(file.(records := file.records + [record])), handle := next.(disabled := true),
             failed := s.failed + [record])
  }

  function ApplyCheckpoint<M>(s: State<M>, upTo: nat, outcome: CheckpointOutcome): State<M>
    requires s.handle.Open? && s.file.Some?
  {
    var kept := Some(File(After(s.file.value.records, upTo), 0));
    var unsynced := s.(file := kept, behind := s.behind + [Behind(s.file, |s.acked|)],
                       handle := s.handle.(disabled := true));
    match outcome
    case ReadFails => s
    case BuildFails => s
    case RenameFails(tookEffect) => if tookEffect then unsynced else s.(handle := s.handle.(disabled := true))
    case SyncFails => unsynced
    case HandleFails => s.(file := kept, behind := [], handle := s.handle.(disabled := true))
    case Replaced => s.(file := kept, behind := [], handle := s.handle.(disabled := false))
  }

  function ApplyReopen<M>(s: State<M>, floor: nat, refuseMissing: bool, outcome: OpenOutcome): State<M> {
    match s.file
    case None =>
      var created := s.(file := Some(File([], 0)));
      if refuseMissing || floor + 1 > MAX_POSITION then s
      else if outcome.OpenReadFails? || outcome.RepairFails? then s
      else if outcome.CreatedUnsynced? then created.(behind := s.behind + [Behind(None, |s.acked|)])
      else if outcome.OpenFails? then created.(behind := [])
      else created.(behind := [], handle := Open(floor + 1, false, 0))
    case Some(file) =>
      var top := MaxPos(file.records);
      var next := (if top > floor then top else floor) + 1;
      if outcome.OpenReadFails? || outcome.CreatedUnsynced? || next > MAX_POSITION then s
      else if outcome.RepairFails? then
        (if outcome.truncated then s.(file := Some(file.(torn := 0))) else s)
      else if outcome.OpenFails? then s.(file := Some(file.(torn := 0)))
      else s.(file := Some(file.(torn := 0)), handle := Open(next, false, file.torn))
  }

  function Apply<M>(s: State<M>, e: Event<M>): State<M>
    requires Allowed(s, e)
  {
    match e
    case Append(m, outcome) => ApplyAppend(s, m, outcome)
    case Checkpoint(upTo, outcome) => ApplyCheckpoint(s, upTo, outcome)
    case Commit(newCursor) => s.(cursor := newCursor)
    case Crash(kept, tornAfter, back) =>
      var found := Found(s, back);
      s.(file := if found.None? then None else Some(File(found.value.records[..kept], tornAfter)),
         behind := if back.Some? then [] else s.behind, handle := Closed)
    case Reopen(floor, refuse, outcome) => ApplyReopen(s, floor, refuse, outcome)
  }

  /** The file that is at the path after a crash. */
  function Found<M>(s: State<M>, back: Option<nat>): Option<File<M>>
    requires back.Some? ==> back.value < |s.behind|
  {
    if back.Some? then s.behind[back.value].file else s.file
  }

  /** Everything acknowledged since the rename is committed. */
  predicate Settled<M>(s: State<M>, b: Behind<M>) {
    forall k :: b.acknowledged <= k < |s.acked| ==> s.acked[k].pos <= s.cursor
  }

  /** A crash keeps what was acknowledged and is in the file that it leaves at the path. */
  predicate Keeps<M(==)>(s: State<M>, kept: nat, back: Option<nat>) {
    && (back.Some? ==> back.value < |s.behind|)
    && (Found(s, back).Some? ==>
          var records := Found(s, back).value.records;
          kept <= |records| && forall k :: kept <= k < |records| ==> records[k] !in s.acked)
  }

  /** What the surroundings promise: the handle is used while it is open, a checkpoint stays behind the
      committed cursor, the cursor moves forward over positions already handed out, a crash keeps
      everything that was acknowledged, a power loss brings a replaced file back only when everything
      acknowledged since is committed, and at a reopening the committed cursor is at most the floor or the
      last position in the file. */
  predicate Allowed<M(==)>(s: State<M>, e: Event<M>) {
    match e
    case Append(_, _) => s.handle.Open? && s.file.Some?
    case Checkpoint(upTo, _) => s.handle.Open? && s.file.Some? && upTo <= s.cursor
    case Commit(newCursor) => s.handle.Open? && s.cursor <= newCursor < s.handle.nextSeq
    case Crash(kept, _, back) => Keeps(s, kept, back) && (back.Some? ==> Settled(s, s.behind[back.value]))
    case Reopen(floor, _, _) => s.handle.Closed? && s.cursor <= Top(s, floor)
  }

  function Start<M>(): State<M> { State(None, [], Closed, 0, [], []) }

  ghost predicate IsRun<M>(s: State<M>, events: seq<Event<M>>)
    decreases |events|
  {
    events == [] || (Allowed(s, events[0]) && IsRun(Apply(s, events[0]), events[1..]))
  }

  function Final<M>(s: State<M>, events: seq<Event<M>>): State<M>
    requires IsRun(s, events)
    decreases |events|
  {
    if events == [] then s else Final(Apply(s, events[0]), events[1..])
  }

  // ---- the invariant ----

  ghost predicate Increasing<M>(records: seq<Record<M>>) {
    forall i, j :: 0 <= i < j < |records| ==> records[i].pos < records[j].pos
  }

  ghost predicate Below<M>(records: seq<Record<M>>, bound: nat) {
    forall i :: 0 <= i < |records| ==> 0 < records[i].pos < bound
  }

  function RecordsOf<M>(file: Option<File<M>>): seq<Record<M>> {
    if file.Some? then file.value.records else []
  }

  function Records<M>(s: State<M>): seq<Record<M>> { RecordsOf(s.file) }

  /** The records are in order, come from appends, and hold the acknowledged ones that are not committed,
      as far as the first `n` of them go. */
  ghost predicate Holds<M(!new)>(s: State<M>, records: seq<Record<M>>, n: nat) {
    && n <= |s.acked| && Increasing(records)
    && (forall r :: r in records ==> 0 < r.pos && (r in s.acked || r in s.failed))
    && (forall k :: 0 <= k < n && s.acked[k].pos > s.cursor ==> s.acked[k] in records)
  }

  ghost predicate BehindHolds<M(!new)>(s: State<M>) {
    forall i :: 0 <= i < |s.behind| ==> Holds(s, RecordsOf(s.behind[i].file), s.behind[i].acknowledged)
  }

  ghost predicate Safe<M(!new)>(s: State<M>) {
    && Increasing(s.acked) && (forall r :: r in s.acked ==> 0 < r.pos)
    && Holds(s, Records(s), |s.acked|) && BehindHolds(s)
    && (s.handle.Open? ==>
          && s.file.Some? && s.cursor < s.handle.nextSeq && 0 < s.handle.nextSeq
          && Below(Records(s), s.handle.nextSeq) && Below(s.acked, s.handle.nextSeq)
          && (!s.handle.disabled ==> s.file.value.torn == 0))
  }

  // ---- lemmas ----

  lemma {:induction false} AfterMember<M(!new)>(records: seq<Record<M>>, from: nat, r: Record<M>)
    ensures r in After(records, from) <==> r in records && r.pos > from
  {
    FilterMember((r: Record<M>) => r.pos > from, records, r);
  }

  lemma {:induction false} AfterIncreasing<M(!new)>(records: seq<Record<M>>, from: nat)
    requires Increasing(records)
    ensures Increasing(After(records, from))
  {
    if records != [] {
      var rest := records[..|records| - 1];
      AfterIncreasing(rest, from);
      var kept := After(rest, from);
      forall i | 0 <= i < |kept|
        ensures kept[i].pos < records[|records| - 1].pos
      {
        AfterMember(rest, from, kept[i]);
        var k :| 0 <= k < |rest| && rest[k] == kept[i];
        assert records[k] == kept[i];
      }
    }
  }

  lemma {:induction false} MaxPosBounds<M(!new)>(records: seq<Record<M>>, r: Record<M>)
    requires r in records
    ensures r.pos <= MaxPos(records)
  {
    var last := records[|records| - 1];
    if r != last {
      assert records == records[..|records| - 1] + [last];
      MaxPosBounds(records[..|records| - 1], r);
    }
  }

  lemma Extended<M(!new)>(records: seq<Record<M>>, r: Record<M>)
    requires Increasing(records) && Below(records, r.pos) && 0 < r.pos
    ensures Increasing(records + [r]) && Below(records + [r], r.pos + 1)
  {
  }

  lemma HigherBound<M(!new)>(records: seq<Record<M>>, bound: nat, higher: nat)
    requires Below(records, bound) && bound <= higher
    ensures Below(records, higher)
  {
  }

  /** Later states acknowledge, fail and commit more, never less. */
  ghost predicate Later<M(!new)>(s: State<M>, s': State<M>) {
    s.acked <= s'.acked && s.failed <= s'.failed && s.cursor <= s'.cursor
  }

  lemma HoldsLater<M(!new)>(s: State<M>, s': State<M>, records: seq<Record<M>>, n: nat)
    requires Holds(s, records, n) && Later(s, s')
    ensures Holds(s', records, n)
  {
    hide Increasing;
  }

  lemma BehindLater<M(!new)>(s: State<M>, s': State<M>)
    requires BehindHolds(s) && Later(s, s') && s'.behind == s.behind
    ensures BehindHolds(s')
  {
    hide Holds, Later;
    forall i | 0 <= i < |s.behind|
      ensures Holds(s', RecordsOf(s.behind[i].file), s.behind[i].acknowledged)
    {
      HoldsLater(s, s', RecordsOf(s.behind[i].file), s.behind[i].acknowledged);
    }
  }

  /** One more rename whose directory was not synced. */
  lemma BehindMore<M(!new)>(s: State<M>, s': State<M>)
    requires BehindHolds(s) && Holds(s, Records(s), |s.acked|)
    requires s' == s.(file := s'.file, handle := s'.handle, behind := s.behind + [Behind(s.file, |s.acked|)])
    ensures BehindHolds(s')
  {
    forall i | 0 <= i < |s'.behind|
      ensures Holds(s', RecordsOf(s'.behind[i].file), s'.behind[i].acknowledged)
    {
      var b := s'.behind[i];
      assert i < |s.behind| ==> b == s.behind[i];
      hide Increasing;
      assert Holds(s, RecordsOf(b.file), b.acknowledged);
    }
  }

  /** The record is in both lists, or only in the file. */
  lemma HoldsMore<M(!new)>(s: State<M>, s': State<M>, r: Record<M>)
    requires Holds(s, Records(s), |s.acked|) && Later(s, s') && s'.cursor == s.cursor
    requires Increasing(Records(s) + [r]) && 0 < r.pos && (r in s'.acked || r in s'.failed)
    requires s'.acked == s.acked || s'.acked == s.acked + [r]
    ensures Holds(s', Records(s) + [r], |s'.acked|)
  {
    hide Increasing;
  }

  lemma AppendSafe<M(!new)>(s: State<M>, m: M, outcome: AppendOutcome)
    requires Safe(s) && Allowed(s, Append(m, outcome))
    ensures Safe(ApplyAppend(s, m, outcome))
  {
    var next := s.handle.nextSeq;
    var r := Record(next, m);
    var s' := ApplyAppend(s, m, outcome);
    if next + 1 <= MAX_POSITION {
      HigherBound(Records(s), next, next + 1);
      HigherBound(s.acked, next, next + 1);
      Extended(Records(s), r);
      Extended(s.acked, r);
      assert Later(s, s');
      BehindLater(s, s');
      HoldsLater(s, s', Records(s), |s.acked|);
      HoldsMore(s, s', r);
      hide Increasing, Below, Holds, BehindHolds;
    }
  }

  lemma KeptBelow<M(!new)>(records: seq<Record<M>>, kept: seq<Record<M>>, bound: nat)
    requires Below(records, bound) && forall r :: r in kept ==> r in records
    ensures Below(kept, bound)
  {
    forall i | 0 <= i < |kept|
      ensures 0 < kept[i].pos < bound
    {
      assert kept[i] in kept;
      var k :| 0 <= k < |records| && records[k] == kept[i];
    }
  }

  lemma CheckpointSafe<M(!new)>(s: State<M>, upTo: nat, outcome: CheckpointOutcome)
    requires Safe(s) && Allowed(s, Checkpoint(upTo, outcome))
    ensures Safe(ApplyCheckpoint(s, upTo, outcome))
  {
    var s' := ApplyCheckpoint(s, upTo, outcome);
    var records := s.file.value.records;
    var kept := After(records, upTo);
    AfterIncreasing(records, upTo);
    forall r ensures r in kept <==> r in records && r.pos > upTo { AfterMember(records, upTo, r); }
    hide After, Increasing, Below;
    KeptBelow(records, kept, s.handle.nextSeq);
    assert Holds(s', kept, |s.acked|);
    if outcome.SyncFails? || (outcome.RenameFails? && outcome.tookEffect) {
      BehindMore(s, s');
    } else {
      BehindKept(s, s');
    }
    hide Holds, BehindHolds;
  }

  lemma BehindKept<M(!new)>(s: State<M>, s': State<M>)
    requires BehindHolds(s) && s' == s.(file := s'.file, handle := s'.handle, behind := s'.behind)
    requires s'.behind == s.behind || s'.behind == []
    ensures BehindHolds(s')
  {
    if s'.behind == s.behind { BehindLater(s, s'); }
  }

  /** The position after the file's last and after the floor is above everything ever used. */
  lemma NextIsAbove<M(!new)>(s: State<M>, floor: nat, next: nat)
    requires Safe(s) && s.cursor <= Top(s, floor) < next
    ensures Below(Records(s), next) && Below(s.acked, next)
  {
    var records := Records(s);
    forall r | r in records ensures 0 < r.pos < next { MaxPosBounds(records, r); }
    hide MaxPos, Increasing, BehindHolds;
    forall k | 0 <= k < |s.acked|
      ensures 0 < s.acked[k].pos < next
    {
      if s.acked[k].pos > s.cursor { assert s.acked[k] in records; }
    }
  }

  lemma ReopenSafe<M(!new)>(s: State<M>, floor: nat, refuse: bool, outcome: OpenOutcome)
    requires Safe(s) && Allowed(s, Reopen(floor, refuse, outcome))
    ensures Safe(ApplyReopen(s, floor, refuse, outcome))
  {
    var s' := ApplyReopen(s, floor, refuse, outcome);
    assert s.file.None? ==> MaxPos(Records(s)) == 0;
    if s'.handle.Open? { NextIsAbove(s, floor, s'.handle.nextSeq); }
    hide MaxPos, Increasing, Below;
    assert Records(s') == Records(s);
    HoldsLater(s, s', Records(s), |s.acked|);
    if s.file.None? && outcome.CreatedUnsynced? && s'.behind != s.behind {
      BehindMore(s, s');
    } else {
      BehindKept(s, s');
    }
    hide Holds, BehindHolds;
  }

  /** The file that a crash leaves holds what it has to hold. */
  lemma FoundHolds<M(!new)>(s: State<M>, back: Option<nat>)
    requires Safe(s) && (back.Some? ==> back.value < |s.behind| && Settled(s, s.behind[back.value]))
    ensures Holds(s, RecordsOf(Found(s, back)), |s.acked|)
  {
    if back.Some? {
      var b := s.behind[back.value];
      assert Holds(s, RecordsOf(b.file), b.acknowledged);
      hide Increasing;
      forall k | 0 <= k < |s.acked| && s.acked[k].pos > s.cursor
        ensures s.acked[k] in RecordsOf(b.file)
      {
        assert k < b.acknowledged;
      }
    }
  }

  lemma CrashSafe<M(!new)>(s: State<M>, kept: nat, torn: nat, back: Option<nat>)
    requires Safe(s) && Allowed(s, Crash(kept, torn, back))
    ensures Safe(Apply(s, Crash(kept, torn, back)))
  {
    var s' := Apply(s, Crash(kept, torn, back));
    FoundHolds(s, back);
    BehindKept(s, s');
    var found := Found(s, back);
    if found.Some? { PrefixHolds(s, s', found.value.records, kept); }
    hide Holds, BehindHolds;
  }

  /** Dropping the end of a file, where nothing is acknowledged. */
  lemma PrefixHolds<M(!new)>(s: State<M>, s': State<M>, records: seq<Record<M>>, kept: nat)
    requires Holds(s, records, |s.acked|) && s'.acked == s.acked && s'.failed == s.failed && s'.cursor == s.cursor
    requires kept <= |records| && forall k :: kept <= k < |records| ==> records[k] !in s.acked
    ensures Holds(s', records[..kept], |s.acked|)
  {
    forall k | 0 <= k < |s.acked| && s.acked[k].pos > s.cursor
      ensures s.acked[k] in records[..kept]
    {
      var j :| 0 <= j < |records| && records[j] == s.acked[k];
      assert j < kept && records[..kept][j] == s.acked[k];
    }
  }

  lemma CommitSafe<M(!new)>(s: State<M>, newCursor: nat)
    requires Safe(s) && Allowed(s, Commit(newCursor))
    ensures Safe(Apply(s, Commit(newCursor)))
  {
    var s' := Apply(s, Commit(newCursor));
    BehindLater(s, s');
    HoldsLater(s, s', Records(s), |s.acked|);
    hide Holds, BehindHolds;
  }

  lemma StepSafe<M(!new)>(s: State<M>, e: Event<M>)
    requires Safe(s) && Allowed(s, e)
    ensures Safe(Apply(s, e))
  {
    match e {
      case Append(m, outcome) => AppendSafe(s, m, outcome);
      case Checkpoint(upTo, outcome) => CheckpointSafe(s, upTo, outcome);
      case Commit(newCursor) => CommitSafe(s, newCursor);
      case Crash(kept, torn, back) => CrashSafe(s, kept, torn, back);
      case Reopen(floor, refuse, outcome) => ReopenSafe(s, floor, refuse, outcome);
    }
  }

  lemma {:induction false} RunSafe<M(!new)>(s: State<M>, events: seq<Event<M>>)
    requires Safe(s) && IsRun(s, events)
    ensures Safe(Final(s, events))
    decreases |events|
  {
    if events != [] {
      StepSafe(s, events[0]);
      hide Safe, Apply;
      RunSafe(Apply(s, events[0]), events[1..]);
    }
  }

  // ---- what the records are made of ----

  /** Every record in the file, or in a file that may come back, is of a kind. */
  ghost predicate Everywhere<M(!new)>(s: State<M>, ok: Record<M> -> bool) {
    && (forall r :: r in Records(s) ==> ok(r))
    && (forall i :: 0 <= i < |s.behind| ==> forall r :: r in RecordsOf(s.behind[i].file) ==> ok(r))
  }

  /** What an event may write is of that kind, at every position. */
  ghost predicate Writes<M(!new)>(e: Event<M>, ok: Record<M> -> bool) {
    WritesWhole(e) ==> forall pos: nat :: pos < MAX_POSITION ==> ok(Record(pos, e.mutation))
  }

  /** The event may leave a whole new record in the file. */
  predicate WritesWhole<M>(e: Event<M>) {
    e.Append? && (e.appendOutcome.Written? || e.appendOutcome.WrittenUnconfirmed?)
  }

  lemma StepEverywhere<M(!new)>(s: State<M>, e: Event<M>, ok: Record<M> -> bool)
    requires Everywhere(s, ok) && Writes(e, ok) && Allowed(s, e)
    ensures Everywhere(Apply(s, e), ok)
  {
    if e.Checkpoint? {
      forall r | r in After(Records(s), e.upTo) ensures r in Records(s) { AfterMember(Records(s), e.upTo, r); }
      hide After, Settled, Keeps;
    } else if e.Append? {
      assert s.handle.nextSeq + 1 <= MAX_POSITION && WritesWhole(e) ==> ok(Record(s.handle.nextSeq, e.mutation));
    }
  }

  lemma {:induction false} RunEverywhere<M(!new)>(s: State<M>, events: seq<Event<M>>, ok: Record<M> -> bool)
    requires Everywhere(s, ok) && IsRun(s, events) && forall i :: 0 <= i < |events| ==> Writes(events[i], ok)
    ensures Everywhere(Final(s, events), ok)
    decreases |events|
  {
    if events != [] {
      StepEverywhere(s, events[0], ok);
      hide Everywhere, Apply, Writes;
      RunEverywhere(Apply(s, events[0]), events[1..], ok);
    }
  }

  // ---- what a replay returns ----

  lemma {:induction false} IncreasingUnique<M(!new)>(a: seq<Record<M>>, b: seq<Record<M>>)
    requires Increasing(a) && Increasing(b) && forall r :: r in a <==> r in b
    ensures a == b
  {
    BothEmpty(a, b);
    if a != [] {
      SameLast(a, b);
      var a', b' := a[..|a| - 1], b[..|b| - 1];
      SameFront(a, b, a', b');
      FrontIncreases(a);
      FrontIncreases(b);
      hide Increasing;
      IncreasingUnique(a', b');
      assert a == a' + [a[|a| - 1]] && b == b' + [b[|b| - 1]];
    }
  }

  lemma BothEmpty<M(!new)>(a: seq<Record<M>>, b: seq<Record<M>>)
    requires forall r :: r in a <==> r in b
    ensures a == [] <==> b == []
  {
    if a != [] { assert a[0] in a; }
    if b != [] { assert b[0] in b; }
  }

  lemma SameLast<M(!new)>(a: seq<Record<M>>, b: seq<Record<M>>)
    requires Increasing(a) && Increasing(b) && (forall r :: r in a <==> r in b) && a != [] && b != []
    ensures a[|a| - 1] == b[|b| - 1]
  {
    var x, y := a[|a| - 1], b[|b| - 1];
    assert x in a && y in b;
    LastIsGreatest(a, y);
    LastIsGreatest(b, x);
    SamePosSame(a, x, y);
  }

  lemma SameFront<M(!new)>(a: seq<Record<M>>, b: seq<Record<M>>, a': seq<Record<M>>, b': seq<Record<M>>)
    requires Increasing(a) && Increasing(b) && (forall r :: r in a <==> r in b) && a != [] && b != []
    requires a[|a| - 1] == b[|b| - 1] && a' == a[..|a| - 1] && b' == b[..|b| - 1]
    ensures forall r :: r in a' <==> r in b'
  {
    hide Increasing;
    forall r ensures r in a' <==> r in b' {
      FrontApart(a, r);
      FrontApart(b, r);
    }
  }

  lemma FrontIncreases<M(!new)>(a: seq<Record<M>>)
    requires Increasing(a) && a != []
    ensures Increasing(a[..|a| - 1])
  {
  }

  lemma LastIsGreatest<M(!new)>(a: seq<Record<M>>, r: Record<M>)
    requires Increasing(a) && a != []
    ensures r in a ==> r.pos <= a[|a| - 1].pos
  {
  }

  lemma SamePosSame<M(!new)>(a: seq<Record<M>>, x: Record<M>, y: Record<M>)
    requires Increasing(a) && x in a && y in a && x.pos == y.pos
    ensures x == y
  {
  }

  lemma FrontApart<M(!new)>(a: seq<Record<M>>, r: Record<M>)
    requires Increasing(a) && a != []
    ensures r in a[..|a| - 1] <==> r in a && r != a[|a| - 1]
  {
    assert a == a[..|a| - 1] + [a[|a| - 1]];
  }

  /** The acknowledged ones among some records. */
  function Acknowledged<M(==)>(records: seq<Record<M>>, acked: seq<Record<M>>): seq<Record<M>> {
    Filter((r: Record<M>) => r in acked, records)
  }

  lemma {:induction false} AcknowledgedIncreasing<M(!new)>(records: seq<Record<M>>, acked: seq<Record<M>>)
    requires Increasing(records)
    ensures Increasing(Acknowledged(records, acked))
  {
    if records != [] {
      var rest := records[..|records| - 1];
      AcknowledgedIncreasing(rest, acked);
      var kept := Acknowledged(rest, acked);
      forall i | 0 <= i < |kept|
        ensures kept[i].pos < records[|records| - 1].pos
      {
        FilterMember((r: Record<M>) => r in acked, rest, kept[i]);
        var k :| 0 <= k < |rest| && rest[k] == kept[i];
        assert records[k] == kept[i];
      }
    }
  }

  /** Nothing acknowledged and uncommitted is missing from a replay, and the order is that of the appends. */
  ghost predicate Complete<M(!new)>(s: State<M>) {
    Acknowledged(After(Records(s), s.cursor), s.acked) == After(s.acked, s.cursor)
  }

  lemma CompleteMeans<M(!new)>(s: State<M>)
    requires Increasing(Records(s)) && Increasing(s.acked)
    ensures Complete(s) <==> forall r :: r in s.acked && r.pos > s.cursor ==> r in Records(s)
  {
    var replayed := After(Records(s), s.cursor);
    var confirmed, expected := Acknowledged(replayed, s.acked), After(s.acked, s.cursor);
    AfterIncreasing(Records(s), s.cursor);
    AfterIncreasing(s.acked, s.cursor);
    AcknowledgedIncreasing(replayed, s.acked);
    forall r ensures (r in expected <==> r in s.acked && r.pos > s.cursor) &&
        (r in confirmed <==> r in Records(s) && r.pos > s.cursor && r in s.acked) {
      FilterMember((r: Record<M>) => r in s.acked, replayed, r);
      AfterMember(Records(s), s.cursor, r);
      AfterMember(s.acked, s.cursor, r);
    }
    hide After, Acknowledged, Increasing;
    if forall r :: r in s.acked && r.pos > s.cursor ==> r in Records(s) {
      IncreasingUnique(confirmed, expected);
    }
  }

  /** A replay from the committed cursor returns, in order, every acknowledged later mutation; anything
      more is an append that reported an error; no two stored records share a position. */
  lemma ReplayIsComplete<M(!new)>(s: State<M>)
    requires Safe(s)
    ensures Increasing(Records(s)) && Complete(s)
    ensures forall r :: r in After(Records(s), s.cursor) && r !in s.acked ==> r in s.failed
  {
    forall r ensures r in After(Records(s), s.cursor) <==>
        r in Records(s) && r.pos > s.cursor { AfterMember(Records(s), s.cursor, r); }
    hide After, Complete, Increasing;
    CompleteMeans(s);
  }

  /** The same over whole runs: however appends, checkpoints, crashes and reopenings are mixed. */
  lemma EveryRunReplays<M(!new)>(events: seq<Event<M>>)
    requires IsRun(Start<M>(), events)
    ensures var s := Final(Start<M>(), events);
            && Increasing(Records(s)) && Complete(s)
            && (forall r :: r in After(Records(s), s.cursor) && r !in s.acked ==> r in s.failed)
  {
    assert Safe(Start<M>());
    RunSafe(Start<M>(), events);
    hide Safe, IsRun, Final;
    ReplayIsComplete(Final(Start<M>(), events));
  }

  /** What a power loss that brings a replaced file back does, whatever was acknowledged since. */
  function Reverted<M>(s: State<M>, kept: nat, torn: nat, i: nat): State<M>
    requires i < |s.behind| && (s.behind[i].file.Some? ==> kept <= |s.behind[i].file.value.records|)
  {
    var old_ := s.behind[i].file;
    s.(file := if old_.None? then None else Some(File(old_.value.records[..kept], torn)), behind := [],
       handle := Closed)
  }

  /** Exactly what it may cost: replay stays complete iff each append acknowledged since the rename is
      committed, or happens to be in the old file as well. */
  lemma ReversalExact<M(!new)>(s: State<M>, kept: nat, torn: nat, i: nat)
    requires Safe(s) && i < |s.behind| && Keeps(s, kept, Some(i))
    ensures Complete(Reverted(s, kept, torn, i)) <==>
      forall k :: s.behind[i].acknowledged <= k < |s.acked| && s.acked[k].pos > s.cursor ==>
          s.acked[k] in RecordsOf(s.behind[i].file)
  {
    var s', b := Reverted(s, kept, torn, i), s.behind[i];
    var records := RecordsOf(b.file);
    assert Holds(s, records, b.acknowledged);
    assert Increasing(Records(s'));
    forall r | r in s.acked
      ensures r in Records(s') <==> r in records
    {
      if r in records {
        var j :| 0 <= j < |records| && records[j] == r;
        assert j < kept && records[..kept][j] == r;
      }
    }
    hide Complete, Increasing;
    CompleteMeans(s');
  }

  /** After a rename whose directory sync failed, an append that a reopened log acknowledges is lost when
      the old file comes back, unless the very same record is in it. */
  lemma UnsyncedAppendIsLost<M(!new)>(s: State<M>, m: M, kept: nat, torn: nat, i: nat)
    requires Safe(s) && s.handle.Open? && !s.handle.disabled && s.handle.nextSeq < MAX_POSITION
    requires i < |s.behind| && Record(s.handle.nextSeq, m) !in RecordsOf(s.behind[i].file)
    requires var written := ApplyAppend(s, m, Written); Keeps(written, kept, Some(i))
    ensures var written := ApplyAppend(s, m, Written);
            Safe(written) && Record(s.handle.nextSeq, m) in written.acked && !Complete(Reverted(written, kept, torn, i))
  {
    var written := ApplyAppend(s, m, Written);
    AppendSafe(s, m, Written);
    assert Holds(s, RecordsOf(s.behind[i].file), s.behind[i].acknowledged);
    assert written.acked[|s.acked|] == Record(s.handle.nextSeq, m);
    hide Complete, Safe;
    ReversalExact(written, kept, torn, i);
  }

  /** Such a state is reached: create the log, append, checkpoint with a failing sync, restart. */
  lemma FailedSyncReaches<M(!new)>(m: M)
    ensures var first: seq<Event<M>> := [Reopen(0, false, Opened), Append(m, Written), Commit(1)];
            var events := first + [Checkpoint(1, SyncFails), Crash(0, 0, None), Reopen(1, true, Opened)];
            && IsRun(Start<M>(), events)
            && var s := Final(Start<M>(), events);
               s.handle == Open(2, false, 0) && s.behind == [Behind(Some(File([Record(1, m)], 0)), 1)] && s.cursor == 1
  {
    var more: seq<Event<M>> := [Checkpoint(1, SyncFails), Crash(0, 0, None), Reopen(1, true, Opened)];
    var events: seq<Event<M>> := [Reopen(0, false, Opened), Append(m, Written), Commit(1)];
    assert events + more == [events[0]] + ([events[1]] + ([events[2]] + more));
    WithOneCommitted(m, more);
    CheckpointedAndRestarted(m);
  }

  function OneCommitted<M>(m: M): State<M> {
    State(Some(File([Record(1, m)], 0)), [], Open(2, false, 0), 1, [Record(1, m)], [])
  }

  lemma WithOneCommitted<M(!new)>(m: M, more: seq<Event<M>>)
    ensures var events := [Reopen(0, false, Opened)] + ([Append(m, Written)] + ([Commit(1)] + more));
            && (IsRun(Start<M>(), events) <==> IsRun(OneCommitted(m), more))
            && (IsRun(OneCommitted(m), more) ==> Final(Start<M>(), events) == Final(OneCommitted(m), more))
  {
    var s1: State<M> := State(Some(File([], 0)), [], Open(1, false, 0), 0, [], []);
    var s2 := OneCommitted(m).(cursor := 0);
    hide IsRun, Final;
    Steps(s2, Commit(1), OneCommitted(m), more);
    assert [] + [Record(1, m)] == [Record(1, m)];
    assert Apply(s1, Append(m, Written)) == s2;
    Steps(s1, Append(m, Written), s2, [Commit(1)] + more);
    Steps(Start<M>(), Reopen(0, false, Opened), s1, [Append(m, Written)] + ([Commit(1)] + more));
  }

  lemma CheckpointedAndRestarted<M(!new)>(m: M)
    ensures var events: seq<Event<M>> := [Checkpoint(1, SyncFails), Crash(0, 0, None), Reopen(1, true, Opened)];
            && IsRun(OneCommitted(m), events)
            && var s := Final(OneCommitted(m), events);
               s.handle == Open(2, false, 0) && s.behind == [Behind(Some(File([Record(1, m)], 0)), 1)] && s.cursor == 1
  {
    var s3 := OneCommitted(m);
    var s4: State<M> := State(Some(File([], 0)), [Behind(s3.file, 1)], Open(2, true, 0), 1, s3.acked, []);
    var s5, s6 := s4.(handle := Closed), s4.(handle := Open(2, false, 0));
    var restart: seq<Event<M>> := [Reopen(1, true, Opened)];
    if After([Record(1, m)], 1) != [] { AfterMember([Record(1, m)], 1, After([Record(1, m)], 1)[0]); }
    assert Apply(s3, Checkpoint(1, SyncFails)) == s4;
    hide After, Filter;
    assert IsRun(s6, []);
    Steps(s5, Reopen(1, true, Opened), s6, []);
    assert restart == [Reopen(1, true, Opened)] + [];
    Steps(s4, Crash(0, 0, None), s5, restart);
    Steps(s3, Checkpoint(1, SyncFails), s4, [Crash(0, 0, None)] + restart);
    assert [Checkpoint(1, SyncFails), Crash(0, 0, None), Reopen(1, true, Opened)] ==
        [Checkpoint(1, SyncFails)] + ([Crash(0, 0, None)] + restart);
  }

  lemma Steps<M(!new)>(s: State<M>, e: Event<M>, s': State<M>, rest: seq<Event<M>>)
    requires Allowed(s, e) && Apply(s, e) == s'
    ensures IsRun(s, [e] + rest) <==> IsRun(s', rest)
    ensures IsRun(s', rest) ==> Final(s, [e] + rest) == Final(s', rest)
  {
    assert ([e] + rest)[1..] == rest;
  }

  /** Exactly which floors are safe: opening leaves a safe log iff the cursor is at most the floor or the last
      position in the file. */
  lemma FloorExact<M(!new)>(s: State<M>, floor: nat, refuse: bool)
    requires Safe(s) && s.handle.Closed? && Top(s, floor) < MAX_POSITION && (s.file.Some? || !refuse)
    ensures Safe(ApplyReopen(s, floor, refuse, Opened)) <==> s.cursor <= Top(s, floor)
  {
    if s.cursor <= Top(s, floor) {
      ReopenSafe(s, floor, refuse, Opened);
    } else {
      assert s.file.None? ==> MaxPos(Records(s)) == 0;
      hide MaxPos;
      assert ApplyReopen(s, floor, refuse, Opened).handle ==
          Open(Top(s, floor) + 1, false, if s.file.Some? then s.file.value.torn else 0);
    }
  }

  /** With any other floor the next append that is acknowledged gets a position that no replay from the cursor
      returns. */
  lemma LowFloorLoses<M(!new)>(s: State<M>, floor: nat, refuse: bool, m: M)
    requires Safe(s) && s.handle.Closed? && (s.file.Some? || !refuse) && Top(s, floor) < s.cursor
    requires Top(s, floor) + 1 < MAX_POSITION
    ensures var written := ApplyAppend(ApplyReopen(s, floor, refuse, Opened), m, Written);
            var record := Record(Top(s, floor) + 1, m);
            record in written.acked && record in Records(written) && record !in After(Records(written), written.cursor)
  {
    assert s.file.None? ==> MaxPos(Records(s)) == 0;
    hide MaxPos;
    var written := ApplyAppend(ApplyReopen(s, floor, refuse, Opened), m, Written);
    AfterMember(Records(written), written.cursor, Record(Top(s, floor) + 1, m));
  }

  // ---- the log object ----

  /** The check every read of the file makes: positions start above zero and strictly increase. */
  method ParseEntries<M>(records: seq<Record<M>>) returns (ok: bool)
    ensures ok <==> Increasing(records) && forall i :: 0 <= i < |records| ==> 0 < records[i].pos
  {
    var previous := 0;
    for i := 0 to |records|
      invariant Increasing(records[..i]) && forall k :: 0 <= k < i ==> 0 < records[k].pos
      invariant previous == if i == 0 then 0 else records[i - 1].pos
    {
      if records[i].pos <= previous {
        assert i > 0 ==> records[i - 1].pos >= records[i].pos;
        return false;
      }
      previous := records[i].pos;
    }
    assert records[..|records|] == records;
    return true;
  }

  class FileClusterLog<M(==,!new)> {
    /** What is at the log's path; the object only ever appends to it or replaces it. */
    var file: File<M>
    var nextSeq: nat
    var disabled: bool
    var repairedTailBytes: nat
    ghost var behind: seq<Behind<M>>
    ghost var cursor: nat
    ghost var acked: seq<Record<M>>
    ghost var failed: seq<Record<M>>

    ghost function View(): State<M>
      reads this
    {
      State(Some(file), behind, Open(nextSeq, disabled, repairedTailBytes), cursor, acked, failed)
    }

    /** The object that opening leaves behind, for an outcome that does. */
    constructor (before: Option<File<M>>, floor: nat, ghost s: State<M>)
      requires before == s.file && s.handle.Closed? && floor + 1 <= MAX_POSITION
      requires before.Some? ==> MaxPos(before.value.records) + 1 <= MAX_POSITION
      ensures View() == ApplyReopen(s, floor, false, Opened)
    {
      match before {
        case None =>
          file, nextSeq, repairedTailBytes := File([], 0), floor + 1, 0;
        case Some(old_) =>
          var top := MaxPos(old_.records);
          file := old_.(torn := 0);
          nextSeq := (if top > floor then top else floor) + 1;
          repairedTailBytes := old_.torn;
      }
      disabled := false;
      behind := if before.None? then [] else s.behind;
      cursor, acked, failed := s.cursor, s.acked, s.failed;
    }

    /** Append one mutation. Its position is used up whatever happens. */
    method Append(m: M, outcome: AppendOutcome) returns (pos: Option<nat>)
      modifies this
      ensures View() == ApplyAppend(old(View()), m, outcome)
      ensures pos.Some? <==> acked == old(acked) + [Record(old(nextSeq), m)]
      ensures pos.Some? ==> pos.value == old(nextSeq)
    {
      var seq_ := nextSeq;
      if seq_ + 1 > MAX_POSITION {
        return None;
      }
      nextSeq := seq_ + 1;
      var record := Record(seq_, m);
      if disabled {
        failed := failed + [record];
        return None;
      }
      match outcome {
        case Written =>
          file := file.(records := file.records + [record]);
          acked := acked + [record];
          return Some(seq_);
        case NothingWritten =>
        case PartWritten(bytes) =>
          file := file.(torn := bytes);
        case WrittenUnconfirmed =>
          file := file.(records := file.records + [record]);
      }
      disabled := true;
      failed := failed + [record];
      return None;
    }

    /** The records after a position, and the bytes that were dropped on the way. */
    method Replay(from: nat) returns (entries: Option<seq<Record<M>>>, skippedBytes: nat)
      modifies this`repairedTailBytes
      ensures entries.Some? <==> Increasing(file.records) && forall i :: 0 <= i < |file.records| ==>
                0 < file.records[i].pos
      ensures entries.Some? ==> entries.value == After(file.records, from) && repairedTailBytes == 0
      ensures entries.Some? ==> skippedBytes == file.torn + old(repairedTailBytes)
    {
      var ok := ParseEntries(file.records);
      if !ok {
        return None, 0;
      }
      skippedBytes := file.torn + repairedTailBytes;
      repairedTailBytes := 0;
      return Some(After(file.records, from)), skippedBytes;
    }

    /** Replace the file by the records after `upTo`, stopping where a step fails. */
    method Checkpoint(upTo: nat, outcome: CheckpointOutcome) returns (ok: bool)
      requires Safe(View())
      modifies this
      ensures View() == ApplyCheckpoint(old(View()), upTo, outcome) && (ok <==> outcome.Replaced?)
    {
      assert forall r :: r in Records(View()) ==> 0 < r.pos;
      var readable := ParseEntries(file.records);
      if outcome.ReadFails? || !readable {
        return false;
      }
      var kept := After(file.records, upTo);
      if outcome.BuildFails? {
        return false;
      }
      disabled := true;
      if outcome.RenameFails? && !outcome.tookEffect {
        return false;
      }
      behind := behind + [Behind(Some(file), |acked|)];
      file := File(kept, 0);
      if outcome.RenameFails? || outcome.SyncFails? {
        return false;
      }
      behind := [];
      if outcome.HandleFails? {
        return false;
      }
      disabled := false;
      return true;
    }
  }
}
