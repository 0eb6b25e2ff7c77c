/** The lock modes of a DORA logical lock and their compatibility matrix. */
module LockModes {

  // DL_CC_NOLOCK < DL_CC_SHARED < DL_CC_EXCL
  datatype LockMode = NoLock | Shared | Excl

  // DoraLockModeMatrix[held][asked]
  predicate Compatible(held: LockMode, asked: LockMode) {
    match held
    case NoLock => true
    case Shared => asked != Excl
    case Excl => asked == NoLock
  }

  // The order of the enumeration, used only when a sole owner upgrades
  predicate Weaker(a: LockMode, b: LockMode) {
    (a == NoLock && b != NoLock) || (a == Shared && b == Excl)
  }
}

/** The logical lock of one key: owners, FIFO waiters and a cached mode.

    `LockState`, `AcquireStep` and `ReleaseStep` are the lock as the code keeps it.
    The simple form is a *line*: all unreleased requests in arrival order, of which the
    longest head run of compatible requests is granted.  The lemmas show that the cached
    mode, the shortcut checks and the promotion loop implement the line. */
module LogicalLocks {
  import opened LockModes
  import opened Sequences

  datatype Request<+A> = Request(action: A, tid: nat, mode: LockMode)

  datatype LockState<+A> = LockState(
    dlm: LockMode,
    owners: seq<Request<A>>,
    waiters: seq<Request<A>>)

  function Free<A>(): LockState<A> { LockState(NoLock, [], []) }

  // ---------------------------------------------------------------------------
  // The lock as the code keeps it
  // ---------------------------------------------------------------------------

  predicate HasTid<A>(reqs: seq<Request<A>>, tid: nat) {
    exists i :: 0 <= i < |reqs| && reqs[i].tid == tid
  }

  // Position of the first request of a transaction, or the length if there is none
  function IndexOf<A>(reqs: seq<Request<A>>, tid: nat): (i: nat)
    ensures i <= |reqs|
    ensures i < |reqs| ==> reqs[i].tid == tid
    ensures forall j :: 0 <= j < i ==> reqs[j].tid != tid
    ensures HasTid(reqs, tid) <==> i < |reqs|
  {
    if reqs == [] then 0
    else if reqs[0].tid == tid then 0
    else
      assert forall j :: 0 < j < |reqs| ==> reqs[j] == reqs[1..][j - 1];
      1 + IndexOf(reqs[1..], tid)
  }

  // The mode that a scan of the owners leaves behind: the last one that is not NoLock
  function Watermark<A>(owners: seq<Request<A>>): LockMode {
    if owners == [] then NoLock
    else if owners[|owners| - 1].mode != NoLock then owners[|owners| - 1].mode
    else Watermark(owners[..|owners| - 1])
  }

  predicate UpgradeClash<A>(s: LockState<A>, r: Request<A>) {
    HasTid(s.owners, r.tid) && s.dlm != r.mode && |s.owners| != 1
  }

  // The state after acquire() and its answer
  function AcquireStep<A>(s: LockState<A>, r: Request<A>): (LockState<A>, bool) {
    if HasTid(s.owners, r.tid) then
      if s.dlm == r.mode then (s, true)
      else if |s.owners| == 1 then (if Weaker(s.dlm, r.mode) then s.(dlm := r.mode) else s, true)
      else (s, false)
    else if !Compatible(s.dlm, r.mode)
            || exists i :: 0 <= i < |s.waiters| && !Compatible(s.waiters[i].mode, r.mode) then
      (s.(waiters := s.waiters + [r]), false)
    else
      (LockState(if r.mode != NoLock then r.mode else s.dlm, s.owners + [r], s.waiters), true)
  }

  // The promotion loop: move the head waiter to the owners while it is compatible
  function Promote<A>(s: LockState<A>): LockState<A>
    decreases |s.waiters|
  {
    if s.waiters == [] || !Compatible(s.dlm, s.waiters[0].mode) then s
    else
      var owners := s.owners + [s.waiters[0]];
      Promote(LockState(Watermark(owners), owners, s.waiters[1..]))
  }

  // The state after release(): drop the owner, refresh the mode, promote if it changed
  function ReleaseStep<A>(s: LockState<A>, tid: nat): LockState<A> {
    var i := IndexOf(s.owners, tid);
    if i < |s.owners| then
      var owners := WithoutAt(s.owners, i);
      var s' := LockState(Watermark(owners), owners, s.waiters);
      if s'.dlm != s.dlm then Promote(s') else s'
    else if s.dlm == NoLock then Promote(s)
    else s
  }

  // The requests that a release promoted, in promotion order
  function Promoted<A>(s: LockState<A>, s': LockState<A>): seq<Request<A>> {
    if |s'.waiters| <= |s.waiters| then s.waiters[..|s.waiters| - |s'.waiters|] else []
  }

  // ---------------------------------------------------------------------------
  // The simple form: the line of unreleased requests
  // ---------------------------------------------------------------------------

  function SharedPrefix<A>(line: seq<Request<A>>): (n: nat)
    ensures n <= |line|
  {
    if line == [] || line[0].mode != Shared then 0 else 1 + SharedPrefix(line[1..])
  }

  // How many requests at the head of the line hold the lock together
  function GrantCount<A>(line: seq<Request<A>>): (n: nat)
    ensures n <= |line|
  {
    if line == [] then 0 else if line[0].mode == Excl then 1 else SharedPrefix(line)
  }

  function HeadMode<A>(line: seq<Request<A>>): LockMode {
    if line == [] then NoLock else line[0].mode
  }

  function StateOf<A>(line: seq<Request<A>>): LockState<A> {
    LockState(HeadMode(line), line[..GrantCount(line)], line[GrantCount(line)..])
  }

  // A request is granted when it conflicts with nobody ahead of it
  ghost predicate GrantedAt<A>(line: seq<Request<A>>, i: nat)
    requires i < |line|
  {
    forall j :: 0 <= j < i ==> Compatible(line[j].mode, line[i].mode)
  }

  // Only shared and exclusive requests are generated
  ghost predicate RealModes<A>(reqs: seq<Request<A>>) {
    forall i :: 0 <= i < |reqs| ==> reqs[i].mode != NoLock
  }

  // One request for each transaction
  ghost predicate DistinctTids<A>(reqs: seq<Request<A>>) {
    forall i, j :: 0 <= i < j < |reqs| ==> reqs[i].tid != reqs[j].tid
  }

  // A sole owner that upgraded holds the cached mode, not the mode of its own entry
  function Line<A>(s: LockState<A>): seq<Request<A>> {
    (if |s.owners| == 1 then [s.owners[0].(mode := s.dlm)] else s.owners) + s.waiters
  }

  /** The invariant of the modes, in the code's own terms. */
  ghost predicate ModeInv<A>(s: LockState<A>) {
    && RealModes(s.owners) && RealModes(s.waiters)
    && (forall i, j :: 0 <= i < j < |s.owners| ==> Compatible(s.owners[i].mode, s.owners[j].mode))
    && (s.dlm == NoLock <==> s.owners == [])
    && (forall i :: 0 <= i < |s.owners| ==> s.dlm == s.owners[i].mode || (|s.owners| == 1 && s.dlm == Excl))
    && (s.waiters != [] ==> !Compatible(s.dlm, s.waiters[0].mode))
  }

  /** The lock invariant. */
  ghost predicate LockInv<A>(s: LockState<A>) {
    ModeInv(s) && DistinctTids(s.owners + s.waiters)
  }

  // The three shapes of a lock
  ghost predicate Shape<A>(s: LockState<A>) {
    && RealModes(s.owners) && RealModes(s.waiters)
    && match s.dlm
       case NoLock => s.owners == [] && s.waiters == []
       case Excl => |s.owners| == 1
       case Shared =>
         && s.owners != []
         && (forall i :: 0 <= i < |s.owners| ==> s.owners[i].mode == Shared)
         && (s.waiters != [] ==> s.waiters[0].mode == Excl)
  }

  /** The mode invariant allows exactly three shapes: free, one exclusive owner, or shared
      owners with at most an exclusive request at the head of the waiters. */
  lemma ModeInvIffShape<A>(s: LockState<A>)
    ensures ModeInv(s) <==> Shape(s)
  {
    if ModeInv(s) && |s.owners| > 1 {
      assert Compatible(s.owners[0].mode, s.owners[1].mode);
    }
  }

  lemma {:induction false} SharedPrefixIs<A>(line: seq<Request<A>>, n: nat)
    requires n <= |line|
    requires forall i :: 0 <= i < n ==> line[i].mode == Shared
    requires n < |line| ==> line[n].mode != Shared
    ensures SharedPrefix(line) == n
  {
    if n > 0 {
      SharedPrefixIs(line[1..], n - 1);
    }
  }

  lemma {:induction false} SharedPrefixAll<A>(line: seq<Request<A>>)
    ensures forall i :: 0 <= i < SharedPrefix(line) ==> line[i].mode == Shared
    ensures SharedPrefix(line) < |line| ==> line[SharedPrefix(line)].mode != Shared
  {
    if line != [] && line[0].mode == Shared {
      SharedPrefixAll(line[1..]);
    }
  }

  /** The granted head run is exactly the set of requests that conflict with nobody ahead. */
  lemma GrantedIffInHeadRun<A>(line: seq<Request<A>>, i: nat)
    requires RealModes(line) && i < |line|
    ensures i < GrantCount(line) <==> GrantedAt(line, i)
  {
    SharedPrefixAll(line);
    if line[0].mode == Shared && i >= SharedPrefix(line) {
      var p := SharedPrefix(line);
      assert !Compatible(line[if i == p then 0 else p].mode, line[i].mode);
    } else if line[0].mode == Excl && i > 0 {
      assert !Compatible(line[0].mode, line[i].mode);
    }
  }

  /** A lock that satisfies the invariant holds the mode of the head of its line, and its
      owners are exactly the granted head run. */
  lemma InvIsCanonical<A>(s: LockState<A>)
    requires ModeInv(s)
    ensures RealModes(Line(s)) && s.dlm == HeadMode(Line(s)) && |s.owners| == GrantCount(Line(s))
  {
    ModeInvIffShape(s);
    if s.dlm == Shared {
      var line := Line(s);
      assert forall i :: 0 <= i < |s.owners| ==> line[i].mode == Shared;
      assert s.waiters != [] ==> line[|s.owners|] == s.waiters[0];
      SharedPrefixIs(line, |s.owners|);
    }
  }

  /** With no upgraded owner the lock state is a function of its line. */
  lemma StateOfIsCanonical<A>(line: seq<Request<A>>)
    requires RealModes(line)
    ensures ModeInv(StateOf(line)) && Line(StateOf(line)) == line
    ensures StateOf(line).owners + StateOf(line).waiters == line
  {
    var s := StateOf(line);
    SharedPrefixAll(line);
    assert s.owners + s.waiters == line;
    ModeInvIffShape(s);
    if |s.owners| == 1 {
      assert [s.owners[0].(mode := s.dlm)] == s.owners;
    }
  }

  /** Conversely a state without an upgraded owner is the canonical state of its line. */
  lemma CanonicalWithoutUpgrade<A>(s: LockState<A>)
    requires ModeInv(s) && (s.owners != [] ==> s.owners[0].mode == s.dlm)
    ensures s == StateOf(s.owners + s.waiters)
  {
    InvIsCanonical(s);
    assert Line(s) == s.owners + s.waiters by {
      if |s.owners| == 1 { assert [s.owners[0].(mode := s.dlm)] == s.owners; }
    }
    assert (s.owners + s.waiters)[..|s.owners|] == s.owners;
    assert (s.owners + s.waiters)[|s.owners|..] == s.waiters;
  }

  lemma {:induction false} WatermarkIs<A>(owners: seq<Request<A>>, m: LockMode)
    requires forall i :: 0 <= i < |owners| ==> owners[i].mode == m
    ensures Watermark(owners) == if owners == [] then NoLock else m
  {
    if owners != [] && m == NoLock {
      WatermarkIs(owners[..|owners| - 1], m);
    }
  }

  /** The promotion loop computes the canonical state of everything that is left. */
  lemma {:induction false} PromoteIsStateOf<A>(s: LockState<A>)
    requires RealModes(s.owners) && RealModes(s.waiters)
    requires s.dlm == HeadMode(s.owners)
    requires forall i :: 0 <= i < |s.owners| ==> s.owners[i].mode == s.dlm
    requires s.dlm == Excl ==> |s.owners| == 1
    ensures Promote(s) == StateOf(s.owners + s.waiters)
    decreases |s.waiters|
  {
    if s.waiters == [] || !Compatible(s.dlm, s.waiters[0].mode) {
      ModeInvIffShape(s);
      CanonicalWithoutUpgrade(s);
    } else {
      var owners := s.owners + [s.waiters[0]];
      assert owners + s.waiters[1..] == s.owners + s.waiters;
      WatermarkIs(owners, s.waiters[0].mode);
      PromoteIsStateOf(LockState(Watermark(owners), owners, s.waiters[1..]));
    }
  }

  // ---------------------------------------------------------------------------
  // One step of the code is one step of the line
  // ---------------------------------------------------------------------------

  // What an acquire does to the two lists
  lemma AcquireLists<A>(s: LockState<A>, r: Request<A>)
    requires ModeInv(s) && r.mode != NoLock && !HasTid(s.owners, r.tid)
    ensures var (s', ok) := AcquireStep(s, r);
            && ModeInv(s')
            && (ok ==> s.waiters == [] && s'.waiters == [] && s'.owners == s.owners + [r] && s'.dlm == r.mode)
            && (ok && s.owners != [] ==> s.dlm == Shared == r.mode)
            && (!ok ==> s'.waiters == s.waiters + [r] && s'.owners == s.owners && s'.dlm == s.dlm)
  {
    var (s', ok) := AcquireStep(s, r);
    ModeInvIffShape(s);
    ModeInvIffShape(s');
    assert s.waiters != [] ==> !Compatible(s.waiters[0].mode, r.mode) || !Compatible(s.dlm, r.mode);
  }

  /** A new request joins the end of the line, and is granted at once exactly when it
      conflicts with nobody in it: no request overtakes a waiter. */
  lemma AcquireJoinsLine<A>(s: LockState<A>, r: Request<A>)
    requires ModeInv(s) && r.mode != NoLock && !HasTid(s.owners, r.tid)
    ensures var (s', ok) := AcquireStep(s, r);
            && ModeInv(s')
            && Line(s') == Line(s) + [r]
            && s'.owners + s'.waiters == s.owners + s.waiters + [r]
            && (ok <==> GrantedAt(Line(s'), |Line(s)|))
            && (ok ==> s.waiters == [] && s'.waiters == [] && s'.owners == s.owners + [r])
            && (!ok ==> s'.waiters == s.waiters + [r] && s'.owners == s.owners)
  {
    var (s', ok) := AcquireStep(s, r);
    AcquireLists(s, r);
    LineAppend(s, s', r);
    InvIsCanonical(s');
    GrantedIffInHeadRun(Line(s'), |Line(s)|);
  }

  lemma LineAppend<A>(s: LockState<A>, s': LockState<A>, r: Request<A>)
    requires ModeInv(s) && ModeInv(s')
    requires || (s.waiters == s'.waiters == [] && s'.owners == s.owners + [r] && s'.dlm == r.mode
                 && (s.owners != [] ==> s.dlm == Shared == r.mode))
             || (s'.waiters == s.waiters + [r] && s'.owners == s.owners && s'.dlm == s.dlm)
    ensures Line(s') == Line(s) + [r] && s'.owners + s'.waiters == s.owners + s.waiters + [r]
    ensures |Line(s)| == |s.owners| + |s.waiters|
  {
    ModeInvIffShape(s);
    ModeInvIffShape(s');
    if s'.owners == s.owners {
      AppendOne(if |s.owners| == 1 then [s.owners[0].(mode := s.dlm)] else s.owners, s.waiters, r);
      AppendOne(s.owners, s.waiters, r);
    } else if |s.owners| == 1 {
      assert s.owners[0] == s'.owners[0];
      assert [s.owners[0].(mode := s.dlm)] == s.owners;
    } else if s.owners == [] {
      assert s'.owners[0] == r;
    }
  }

  /** A request of a transaction that already owns the lock never waits; it changes the
      line only when a sole owner asks for more, and then only the mode at the head. */
  lemma AcquireAgain<A>(s: LockState<A>, r: Request<A>)
    requires ModeInv(s) && r.mode != NoLock && HasTid(s.owners, r.tid) && !UpgradeClash(s, r)
    ensures var (s', ok) := AcquireStep(s, r);
            && ok && ModeInv(s')
            && s'.owners == s.owners && s'.waiters == s.waiters
            && Line(s') == if s.dlm == Shared && r.mode == Excl
                           then [Line(s)[0].(mode := Excl)] + Line(s)[1..] else Line(s)
  {
    var (s', ok) := AcquireStep(s, r);
    ModeInvIffShape(s);
    ModeInvIffShape(s');
    if s.dlm == Shared && r.mode == Excl {
      assert Line(s)[1..] == s.waiters;
    }
  }

  lemma LineWithout<A>(s: LockState<A>, i: nat)
    requires i < |s.owners|
    requires |s.owners| > 1 ==> s.owners[i].mode == s.dlm
    ensures WithoutAt(Line(s), i) == WithoutAt(s.owners, i) + s.waiters
  {
  }

  lemma OwnersWithout<A>(s: LockState<A>, i: nat)
    requires ModeInv(s) && i < |s.owners|
    ensures var owners := WithoutAt(s.owners, i);
            && RealModes(owners + s.waiters)
            && (|s.owners| == 1 ==> owners == [])
            && (|s.owners| > 1 ==> s.dlm == Shared && forall j :: 0 <= j < |owners| ==> owners[j].mode == Shared)
  {
    ModeInvIffShape(s);
  }

  /** A release takes the owner out of the line and leaves the canonical state of the rest. */
  lemma ReleaseIsCanonical<A>(s: LockState<A>, tid: nat)
    requires ModeInv(s) && HasTid(s.owners, tid)
    ensures var i := IndexOf(s.owners, tid);
            && ReleaseStep(s, tid) == StateOf(WithoutAt(s.owners, i) + s.waiters)
            && RealModes(WithoutAt(s.owners, i) + s.waiters)
            && WithoutAt(Line(s), i) == WithoutAt(s.owners, i) + s.waiters
  {
    var i := IndexOf(s.owners, tid);
    OwnersWithout(s, i);
    LineWithout(s, i);
    if |s.owners| == 1 {
      LastOwnerLeaves(s, tid);
    } else {
      SharedOwnerLeaves(s, tid);
    }
  }

  lemma LastOwnerLeaves<A>(s: LockState<A>, tid: nat)
    requires ModeInv(s) && |s.owners| == 1 && HasTid(s.owners, tid)
    ensures ReleaseStep(s, tid) == StateOf([] + s.waiters)
  {
    PromoteIsStateOf(LockState(NoLock, [], s.waiters));
    assert WithoutAt(s.owners, 0) == [];
  }

  lemma SharedOwnerLeaves<A>(s: LockState<A>, tid: nat)
    requires ModeInv(s) && |s.owners| > 1 && HasTid(s.owners, tid)
    ensures ReleaseStep(s, tid) == StateOf(WithoutAt(s.owners, IndexOf(s.owners, tid)) + s.waiters)
  {
    var owners := WithoutAt(s.owners, IndexOf(s.owners, tid));
    OwnersWithout(s, IndexOf(s.owners, tid));
    ModeInvIffShape(s);
    WatermarkIs(owners, Shared);
    var left := LockState(Shared, owners, s.waiters);
    ModeInvIffShape(left);
    CanonicalWithoutUpgrade(left);
  }

  /** What a release promotes is the head of the waiters, so nothing overtakes. */
  lemma ReleaseLeavesLine<A>(s: LockState<A>, tid: nat)
    requires ModeInv(s) && HasTid(s.owners, tid)
    ensures var s' := ReleaseStep(s, tid);
            && ModeInv(s')
            && Line(s') == WithoutAt(Line(s), IndexOf(s.owners, tid))
            && |s'.waiters| <= |s.waiters|
            && s.waiters == Promoted(s, s') + s'.waiters
            && s'.owners == WithoutAt(s.owners, IndexOf(s.owners, tid)) + Promoted(s, s')
  {
    var owners := WithoutAt(s.owners, IndexOf(s.owners, tid));
    ReleaseIsCanonical(s, tid);
    StateOfIsCanonical(owners + s.waiters);
    RemainingStay(s, IndexOf(s.owners, tid));
    PromotedSplits(owners, s.waiters, ReleaseStep(s, tid));
  }

  lemma OwnersStay<A>(owners: seq<Request<A>>, waiters: seq<Request<A>>)
    requires forall i :: 0 <= i < |owners| ==> owners[i].mode == Shared
    ensures |owners| <= GrantCount(owners + waiters)
  {
    var line := owners + waiters;
    SharedPrefixAll(line);
    assert forall i :: 0 <= i < |owners| ==> line[i] == owners[i];
  }

  lemma RemainingStay<A>(s: LockState<A>, i: nat)
    requires ModeInv(s) && i < |s.owners|
    ensures |WithoutAt(s.owners, i)| <= GrantCount(WithoutAt(s.owners, i) + s.waiters)
  {
    OwnersWithout(s, i);
    OwnersStay(WithoutAt(s.owners, i), s.waiters);
  }

  lemma PromotedSplits<A>(owners: seq<Request<A>>, waiters: seq<Request<A>>, s': LockState<A>)
    requires s'.owners + s'.waiters == owners + waiters && |owners| <= |s'.owners|
    ensures |s'.waiters| <= |waiters|
    ensures var p := waiters[..|waiters| - |s'.waiters|];
            waiters == p + s'.waiters && s'.owners == owners + p
  {
    var line := owners + waiters;
    var n := |s'.owners|;
    assert s'.owners == line[..n] == owners + waiters[..n - |owners|];
    assert s'.waiters == line[n..] == waiters[n - |owners|..];
  }

  lemma DistinctAppend<A>(line: seq<Request<A>>, r: Request<A>)
    requires DistinctTids(line) && !HasTid(line, r.tid)
    ensures DistinctTids(line + [r])
  {
  }

  lemma DistinctWithout<A>(line: seq<Request<A>>, i: nat)
    requires DistinctTids(line) && i < |line|
    ensures DistinctTids(WithoutAt(line, i))
  {
    var left := WithoutAt(line, i);
    assert forall j :: 0 <= j < |left| ==> left[j] == line[if j < i then j else j + 1];
  }

  // ---------------------------------------------------------------------------
  // Runs of one lock
  // ---------------------------------------------------------------------------

  datatype Event<+A> = Ask(r: Request<A>) | Give(tid: nat)

  // A lock with the history of its new requests and of its grants
  datatype Trace<+A> = Trace(s: LockState<A>, asked: seq<Request<A>>, granted: seq<Request<A>>)

  function TraceStep<A>(t: Trace<A>, e: Event<A>): Trace<A> {
    match e
    case Ask(r) =>
      var (s', ok) := AcquireStep(t.s, r);
      if HasTid(t.s.owners, r.tid) then t.(s := s')
      else Trace(s', t.asked + [r], if ok then t.granted + [r] else t.granted)
    case Give(tid) =>
      var s' := ReleaseStep(t.s, tid);
      Trace(s', t.asked, t.granted + Promoted(t.s, s'))
  }

  function Run<A>(t: Trace<A>, evs: seq<Event<A>>): Trace<A>
    decreases |evs|
  {
    if evs == [] then t else Run(TraceStep(t, evs[0]), evs[1..])
  }

  // What a well-formed client may do next
  ghost predicate MayDo<A>(s: LockState<A>, e: Event<A>) {
    match e
    case Ask(r) => r.mode != NoLock && !HasTid(s.waiters, r.tid) && !UpgradeClash(s, r)
    case Give(tid) => HasTid(s.owners, tid)
  }

  ghost predicate MayRun<A>(t: Trace<A>, evs: seq<Event<A>>)
    decreases |evs|
  {
    evs != [] ==> MayDo(t.s, evs[0]) && MayRun(TraceStep(t, evs[0]), evs[1..])
  }

  function Gives<A>(evs: seq<Event<A>>): nat {
    if evs == [] then 0 else (if evs[0].Give? then 1 else 0) + Gives(evs[1..])
  }

  lemma AskKeeps<A>(s: LockState<A>, r: Request<A>)
    requires LockInv(s) && MayDo(s, Ask(r))
    ensures LockInv(AcquireStep(s, r).0)
  {
    if HasTid(s.owners, r.tid) {
      AcquireAgain(s, r);
    } else {
      AcquireJoinsLine(s, r);
      DistinctAppend(s.owners + s.waiters, r);
    }
  }

  // The requests left after a release are the old ones without that of the owner
  lemma GiveLeaves<A>(s: LockState<A>, tid: nat)
    requires ModeInv(s) && HasTid(s.owners, tid)
    ensures var s' := ReleaseStep(s, tid);
            ModeInv(s') && s'.owners + s'.waiters == WithoutAt(s.owners + s.waiters, IndexOf(s.owners, tid))
  {
    var i := IndexOf(s.owners, tid);
    ReleaseIsCanonical(s, tid);
    StateOfIsCanonical(WithoutAt(s.owners, i) + s.waiters);
    WithoutLeft(s.owners, s.waiters, i);
  }

  lemma GiveKeeps<A>(s: LockState<A>, tid: nat)
    requires LockInv(s) && HasTid(s.owners, tid)
    ensures LockInv(ReleaseStep(s, tid))
  {
    GiveLeaves(s, tid);
    DistinctWithout(s.owners + s.waiters, IndexOf(s.owners, tid));
  }

  // What a step does to the counts and to the waiters
  lemma StepMoves<A>(t: Trace<A>, e: Event<A>)
    requires ModeInv(t.s) && MayDo(t.s, e)
    ensures var t' := TraceStep(t, e);
            e.Ask? ==>
              && t.s.waiters <= t'.s.waiters
              && (t.s.waiters != [] ==> |t'.s.owners| == |t.s.owners| && t'.granted == t.granted)
              && (t.asked == t.granted + t.s.waiters ==> t'.asked == t'.granted + t'.s.waiters)
    ensures var t' := TraceStep(t, e);
            e.Give? ==>
              && |t'.s.waiters| <= |t.s.waiters|
              && var p := |t.s.waiters| - |t'.s.waiters|;
              && |t'.s.owners| == |t.s.owners| - 1 + p
              && t'.s.owners[|t.s.owners| - 1..] == t.s.waiters[..p]
              && t'.granted == t.granted + t.s.waiters[..p]
              && t'.s.waiters == t.s.waiters[p..]
              && t'.asked == t.asked
  {
    match e
    case Ask(r) =>
      if HasTid(t.s.owners, r.tid) { AcquireAgain(t.s, r); } else { AcquireJoinsLine(t.s, r); }
    case Give(tid) =>
      ReleaseLeavesLine(t.s, tid);
  }

  /** One step keeps the invariant and the order of the queue. */
  lemma StepKeeps<A>(t: Trace<A>, e: Event<A>)
    requires LockInv(t.s) && MayDo(t.s, e)
    ensures var t' := TraceStep(t, e);
            && LockInv(t'.s)
            && (t.asked == t.granted + t.s.waiters ==> t'.asked == t'.granted + t'.s.waiters)
  {
    StepMoves(t, e);
    match e
    case Ask(r) => AskKeeps(t.s, r);
    case Give(tid) => GiveKeeps(t.s, tid);
  }

  /** FIFO over whole runs: the grants so far followed by the current waiters are the
      requests in the order they were made.  Nothing is lost, duplicated or overtaken. */
  lemma {:induction false} RunIsFifo<A>(t: Trace<A>, evs: seq<Event<A>>)
    requires LockInv(t.s) && t.asked == t.granted + t.s.waiters && MayRun(t, evs)
    ensures var t' := Run(t, evs); LockInv(t'.s) && t'.asked == t'.granted + t'.s.waiters
    decreases |evs|
  {
    if evs != [] {
      StepKeeps(t, evs[0]);
      RunIsFifo(TraceStep(t, evs[0]), evs[1..]);
    }
  }

  lemma {:induction false} GrantsOnlyGrow<A>(t: Trace<A>, evs: seq<Event<A>>)
    ensures t.granted <= Run(t, evs).granted
    decreases |evs|
  {
    if evs != [] {
      GrantsOnlyGrow(TraceStep(t, evs[0]), evs[1..]);
    }
  }

  // A release seen by the i-th waiter: it is granted now, or one place closer
  lemma GiveMovesWaiter<A>(t: Trace<A>, tid: nat, i: nat)
    requires ModeInv(t.s) && HasTid(t.s.owners, tid) && i < |t.s.waiters|
    ensures var t' := TraceStep(t, Give(tid));
            && |t'.s.waiters| <= |t.s.waiters|
            && var p := |t.s.waiters| - |t'.s.waiters|;
            && |t'.granted| == |t.granted| + p
            && |t'.s.owners| == |t.s.owners| - 1 + p
            && (i < p ==> t.s.waiters[i].mode == Excl ==> |t.s.owners| + i == 1)
            && (i >= p ==> t'.s.waiters[i - p] == t.s.waiters[i])
  {
    StepMoves(t, Give(tid));
    var t' := TraceStep(t, Give(tid));
    var p := |t.s.waiters| - |t'.s.waiters|;
    if i < p {
      GiveLeaves(t.s, tid);
      assert t'.s.owners[|t.s.owners| - 1..][i] == t.s.waiters[i];
      ExclOwnsAlone(t'.s, |t.s.owners| - 1 + i);
    }
  }

  lemma AskMovesWaiter<A>(t: Trace<A>, r: Request<A>, i: nat)
    requires ModeInv(t.s) && MayDo(t.s, Ask(r)) && i < |t.s.waiters|
    ensures var t' := TraceStep(t, Ask(r));
            && i < |t'.s.waiters| && t'.s.waiters[i] == t.s.waiters[i]
            && |t'.s.owners| == |t.s.owners| && t'.granted == t.granted
  {
    StepMoves(t, Ask(r));
  }

  lemma StepKeepsModes<A>(t: Trace<A>, e: Event<A>)
    requires ModeInv(t.s) && MayDo(t.s, e)
    ensures ModeInv(TraceStep(t, e).s)
  {
    match e
    case Ask(r) =>
      if HasTid(t.s.owners, r.tid) { AcquireAgain(t.s, r); } else { AcquireJoinsLine(t.s, r); }
    case Give(tid) => GiveLeaves(t.s, tid);
  }

  /** Bounded waiting: the i-th waiter has |owners| + i unreleased requests ahead of it, and
      is granted after at most that many releases, whatever new requests are interleaved.
      An exclusive waiter is granted after exactly that many. */
  lemma {:induction false} WaiterGrantedAfter<A>(t: Trace<A>, i: nat, evs: seq<Event<A>>)
    requires ModeInv(t.s) && i < |t.s.waiters| && MayRun(t, evs)
    ensures var ahead := |t.s.owners| + i;
            var got := |t.granted| + i < |Run(t, evs).granted|;
            && (Gives(evs) >= ahead ==> got)
            && (got && t.s.waiters[i].mode == Excl ==> Gives(evs) >= ahead)
    decreases |evs|
  {
    if evs == [] {
      OwnersWhenWaiting(t.s);
    } else {
      var t' := TraceStep(t, evs[0]);
      StepKeepsModes(t, evs[0]);
      match evs[0]
      case Ask(r) =>
        AskMovesWaiter(t, r, i);
        WaiterGrantedAfter(t', i, evs[1..]);
      case Give(tid) =>
        GiveMovesWaiter(t, tid, i);
        var p := |t.s.waiters| - |t'.s.waiters|;
        if i < p {
          GrantsOnlyGrow(t', evs[1..]);
        } else {
          WaiterGrantedAfter(t', i - p, evs[1..]);
        }
    }
  }

  lemma OwnersWhenWaiting<A>(s: LockState<A>)
    requires ModeInv(s) && s.waiters != []
    ensures s.owners != []
  {
    ModeInvIffShape(s);
  }

  // An exclusive owner is the only owner
  lemma ExclOwnsAlone<A>(s: LockState<A>, i: nat)
    requires ModeInv(s) && i < |s.owners|
    ensures s.owners[i].mode == Excl ==> |s.owners| == 1
  {
    ModeInvIffShape(s);
  }

  /** Two actions of one transaction on one key break the release accounting: the second
      release finds neither an owner entry nor a free lock, which is the state in which
      release() asserts. */
  lemma RepeatedRequestBreaksRelease(a: nat, b: nat, c: nat, t: nat, u: nat)
    requires t != u
    ensures var s0 := AcquireStep(Free(), Request(a, t, Excl)).0;
            var (s1, again) := AcquireStep(s0, Request(b, t, Excl));
            var s2 := AcquireStep(s1, Request(c, u, Excl)).0;
            var s3 := ReleaseStep(s2, t);
            again && s3.owners == [Request(c, u, Excl)] && !HasTid(s3.owners, t) && s3.dlm != NoLock
  {
    var s0 := AcquireStep(Free(), Request(a, t, Excl)).0;
    assert s0.owners[0].tid == t;
    var s2 := AcquireStep(s0, Request(c, u, Excl)).0;
    assert s2.owners == [Request(a, t, Excl)] && s2.waiters == [Request(c, u, Excl)];
    assert IndexOf(s2.owners, t) == 0;
    assert WithoutAt(s2.owners, 0) == [];
    PromoteIsStateOf(LockState(NoLock, [], s2.waiters));
    assert [] + s2.waiters == s2.waiters;
  }

  // ---------------------------------------------------------------------------
  // The lock object
  // ---------------------------------------------------------------------------

  class LogicalLock<A> {
    var dlm: LockMode
    var owners: seq<Request<A>>
    var waiters: seq<Request<A>>

    ghost function State(): LockState<A>
      reads this
    {
      LockState(dlm, owners, waiters)
    }

    ghost predicate Valid()
      reads this
    {
      ModeInv(State())
    }

    // A lock is created with its first owner
    constructor (anowner: Request<A>)
      requires anowner.mode != NoLock
      ensures Valid() && State() == AcquireStep(Free(), anowner).0 == StateOf([anowner])
    {
      dlm := anowner.mode;
      owners := [anowner];
      waiters := [];
      new;
      StateOfIsCanonical([anowner]);
      SharedPrefixAll([anowner]);
    }

    method Acquire(alr: Request<A>) returns (acquired: bool)
      requires Valid() && alr.mode != NoLock && !UpgradeClash(State(), alr)
      modifies this
      ensures Valid()
      ensures (State(), acquired) == AcquireStep(old(State()), alr)
    {
      ghost var s := State();
      assert ModeInv(AcquireStep(s, alr).0) by {
        if HasTid(owners, alr.tid) { AcquireAgain(s, alr); } else { AcquireJoinsLine(s, alr); }
      }
      // 1. Check if already possessing this lock
      var i := 0;
      while i < |owners|
        invariant 0 <= i <= |owners| && State() == s
        invariant forall j :: 0 <= j < i ==> owners[j].tid != alr.tid
      {
        if alr.tid == owners[i].tid {
          assert HasTid(owners, alr.tid);
          if dlm == alr.mode {
            return true;
          }
          assert |owners| == 1;  // several owners cannot be upgraded
          if Weaker(dlm, alr.mode) {
            dlm := alr.mode;
          }
          return true;
        }
        i := i + 1;
      }
      assert !HasTid(owners, alr.tid);

      // 2. Not compatible with the current mode
      if !Compatible(dlm, alr.mode) {
        assert owners != [];
        waiters := waiters + [alr];
        return false;
      }

      // 3. Check the waiters, head to tail
      for w := 0 to |waiters|
        invariant State() == s
        invariant forall j :: 0 <= j < w ==> Compatible(waiters[j].mode, alr.mode)
      {
        if !Compatible(waiters[w].mode, alr.mode) {
          waiters := waiters + [alr];
          return false;
        }
      }

      // 4. Enqueue to the owners
      owners := owners + [alr];
      if alr.mode != NoLock {
        dlm := alr.mode;
      }
      return true;
    }

    // The precondition is the note of the original: the action is among the owners, or the
    // lock is free
    method Release(tid: nat, promotedList: seq<A>) returns (ipromoted: nat, promotedList': seq<A>)
      requires Valid() && (HasTid(owners, tid) || dlm == NoLock)
      modifies this
      ensures Valid()
      ensures State() == ReleaseStep(old(State()), tid)
      ensures ipromoted == |Promoted(old(State()), State())|
      ensures promotedList' == promotedList + Actions(Promoted(old(State()), State()))
    {
      ghost var s := State();
      var i := 0;
      while i < |owners|
        invariant 0 <= i <= |owners| && State() == s
        invariant forall j :: 0 <= j < i ==> owners[j].tid != tid
      {
        if owners[i].tid == tid {
          ipromoted, promotedList' := DropOwner(i, promotedList);
          return;
        }
        i := i + 1;
      }
      assert !HasTid(owners, tid);
      assert owners == [];
      ipromoted, promotedList' := PromoteWaiters(promotedList);
    }

    // Erase an owner, refresh the mode and, if it changed, promote
    method DropOwner(i: nat, promotedList: seq<A>) returns (ipromoted: nat, promotedList': seq<A>)
      requires Valid() && i < |owners| && i == IndexOf(owners, owners[i].tid)
      modifies this
      ensures Valid()
      ensures State() == ReleaseStep(old(State()), old(owners[i].tid))
      ensures ipromoted == |Promoted(old(State()), State())|
      ensures promotedList' == promotedList + Actions(Promoted(old(State()), State()))
    {
      ghost var s := State();
      ghost var tid := owners[i].tid;
      assert HasTid(owners, tid);
      assert ModeInv(ReleaseStep(s, tid)) by { ReleaseLeavesLine(s, tid); }
      ErasedOwnersAgree(s, i);
      owners := WithoutAt(owners, i);
      var changed := UpdDlm();
      ipromoted, promotedList' := 0, promotedList;
      if changed {
        ipromoted, promotedList' := PromoteWaiters(promotedList);
      }
    }

    // The promotion loop, in FIFO order
    method PromoteWaiters(promotedList: seq<A>) returns (ipromoted: nat, promotedList': seq<A>)
      requires dlm == Watermark(owners) && OwnersAgree(owners)
      modifies this
      ensures State() == Promote(old(State()))
      ensures ipromoted == |Promoted(old(State()), State())|
      ensures promotedList' == promotedList + Actions(Promoted(old(State()), State()))
    {
      ghost var s := State();
      ghost var moved: seq<Request<A>> := [];
      ipromoted := 0;
      promotedList' := promotedList;
      var canAcquire := HeadCanAcquire();
      while canAcquire
        invariant canAcquire <==> waiters != [] && Compatible(dlm, waiters[0].mode)
        invariant dlm == Watermark(owners) && OwnersAgree(owners)
        invariant Promote(State()) == Promote(s)
        invariant s.waiters == moved + waiters
        invariant ipromoted == |moved|
        invariant promotedList' == promotedList + Actions(moved)
        decreases |waiters|
      {
        var head := waiters[0];
        MoveHead(moved, waiters);
        ActionsAppend(moved, head);
        AppendOne(promotedList, Actions(moved), head.action);
        AgreeAppend(owners, head);
        promotedList' := promotedList' + [head.action];
        owners := owners + [head];
        ipromoted := ipromoted + 1;
        waiters := waiters[1..];
        moved := moved + [head];
        var _ := UpdDlm();
        canAcquire := HeadCanAcquire();
      }
      assert Promoted(s, State()) == moved;
    }

    method HeadCanAcquire() returns (can: bool)
      ensures can <==> waiters != [] && Compatible(dlm, waiters[0].mode)
    {
      if waiters == [] {
        return false;
      }
      return Compatible(dlm, waiters[0].mode);
    }

    // Scan the owners and refresh the cached mode
    method UpdDlm() returns (changed: bool)
      requires OwnersAgree(owners)
      modifies this`dlm
      ensures dlm == Watermark(owners)
      ensures changed <==> dlm != old(dlm)
    {
      if owners == [] {
        if dlm != NoLock {
          dlm := NoLock;
          return true;
        }
        return false;
      }
      var newDlm := NoLock;
      var i := 0;
      while i < |owners|
        invariant 0 <= i <= |owners|
        invariant newDlm == Watermark(owners[..i])
      {
        var odlm := owners[i].mode;
        assert Compatible(newDlm, odlm);  // two owners never have incompatible modes
        assert owners[..i + 1][..i] == owners[..i];
        if odlm != NoLock {
          newDlm := odlm;
        }
        i := i + 1;
      }
      assert owners[..|owners|] == owners;
      changed := dlm != newDlm;
      dlm := newDlm;
    }

    // A clean lock has an empty line
    method IsClean() returns (clean: bool)
      requires Valid()
      ensures clean <==> Line(State()) == []
    {
      clean := owners == [] && waiters == [] && dlm == NoLock;
    }
  }

  function Actions<A>(reqs: seq<Request<A>>): (actions: seq<A>)
    ensures |actions| == |reqs| && forall i :: 0 <= i < |reqs| ==> actions[i] == reqs[i].action
  {
    seq(|reqs|, i requires 0 <= i < |reqs| => reqs[i].action)
  }

  lemma ActionsConcat<A>(x: seq<Request<A>>, y: seq<Request<A>>)
    ensures Actions(x + y) == Actions(x) + Actions(y)
  {
  }

  lemma ActionsAppend<A>(reqs: seq<Request<A>>, r: Request<A>)
    ensures Actions(reqs + [r]) == Actions(reqs) + [r.action]
  {
  }

  // No owner conflicts with the mode left behind by the owners scanned before it: the
  // condition that _upd_dlm() asserts
  ghost predicate OwnersAgree<A>(owners: seq<Request<A>>) {
    forall i :: 0 <= i < |owners| ==> Compatible(Watermark(owners[..i]), owners[i].mode)
  }

  lemma AgreeAppend<A>(owners: seq<Request<A>>, r: Request<A>)
    requires OwnersAgree(owners) && Compatible(Watermark(owners), r.mode)
    ensures OwnersAgree(owners + [r])
  {
    forall i | 0 <= i < |owners + [r]|
      ensures Compatible(Watermark((owners + [r])[..i]), (owners + [r])[i].mode)
    {
      assert (owners + [r])[..i] == owners[..i];
      assert i == |owners| ==> owners[..i] == owners;
    }
  }

  /** The assert of _upd_dlm() holds in every reachable lock, also right after an owner left. */
  lemma ErasedOwnersAgree<A>(s: LockState<A>, i: nat)
    requires ModeInv(s) && i < |s.owners|
    ensures OwnersAgree(WithoutAt(s.owners, i))
  {
    var owners := WithoutAt(s.owners, i);
    if |s.owners| > 1 {
      assert Compatible(s.owners[0].mode, s.owners[1].mode);
      forall j | 0 <= j < |owners| ensures Compatible(Watermark(owners[..j]), owners[j].mode) {
        WatermarkIs(owners[..j], Shared);
      }
    }
  }
}
