/** What every run of the coverage-gate protocol keeps. */
module CoverageSafety {
  import opened Wrappers
  import opened CoverageGate

  // ------------------------------------------------------------ what a trace may say

  predicate IsWrite(e: Event) { e.Config? && e.deed.Write? }

  predicate Wrote(e: Event) { IsWrite(e) && e.deed.wrote }

  /** A write made under the two coverage locks. */
  predicate IsLocked(e: Event) { IsWrite(e) && (e.deed.writer.Provisional? || e.deed.writer.Final?) }

  predicate IsMiss(e: Event, p: Pid) { e.Config? && e.pid == p && e.deed.Miss? }

  /** How often p found that another config transaction had interposed. */
  function Misses(h: seq<Event>, p: Pid): nat
  {
    if |h| == 0 then 0 else Misses(h[..|h| - 1], p) + if IsMiss(h[|h| - 1], p) then 1 else 0
  }

  /** Position v is p's provisional write, and no locked write follows it. */
  ghost predicate PairOpen(h: seq<Event>, p: Pid, v: nat)
  {
    && v < |h| && IsWrite(h[v]) && h[v].pid == p && h[v].deed.writer == Provisional
    && (forall k :: v < k < |h| ==> !IsLocked(h[k]))
  }

  ghost predicate NothingWritten(h: seq<Event>, from: nat)
  {
    forall k :: from < k < |h| ==> !Wrote(h[k])
  }

  /** The record a transaction took away from position i of the trace. */
  function Expected(e: Event): Option<Gate>
  {
    if !e.Config? then None
    else match e.deed
         case Snapshot(found) => found
         case Write(_, _, after, _, _) => after
         case _ => None
  }

  ghost predicate Untouched(h: seq<Event>, i: nat, deed: Deed)
    requires i < |h| && deed.Write?
  {
    deed.before == Expected(h[i]) && NothingWritten(h, i)
  }

  /** The record found is the one left at position i, or a lapsed waiver laid over it. */
  ghost predicate CasHeld(h: seq<Event>, i: nat, deed: Deed)
    requires i < |h| && deed.Write?
  {
    Untouched(h, i, deed) || (WaiverOverlays(deed.before, Expected(h[i])) && !WaiverActive(deed.before, deed.now))
  }

  /** The percentage in the newest piece of evidence. */
  function LastPercent(gate: Option<Gate>): Option<nat>
  {
    if gate.Some? && gate.value.evidence != [] then gate.value.evidence[|gate.value.evidence| - 1].percent else None
  }

  /** Everything a green must be able to point back to, in this order. */
  ghost predicate GreenTrail(h: seq<Event>, e: Event, x: Marks)
    requires IsWrite(e)
  {
    && x.provisional < x.before < x.command < x.after < x.fence < x.probe < |h|
    && PairOpen(h, e.pid, x.provisional)
    && CasHeld(h, x.provisional, e.deed)
    && h[x.before] == PathsSeen(e.pid, true, true)
    && h[x.command] == CommandRan(e.pid, true, LastPercent(e.deed.after)) && LastPercent(e.deed.after).Some?
    && h[x.after] == PathsSeen(e.pid, false, true)
    && h[x.fence].Config? && h[x.fence].pid == e.pid && (h[x.fence].deed.Fence? || h[x.fence].deed.Miss?)
    && h[x.probe] == Probed(e.pid, true)
    && (forall k :: x.fence < k < |h| ==> !h[k].Config?)
  }

  ghost predicate IsBegin(h: seq<Event>, i: nat, p: Pid)
  {
    i < |h| && h[i].Config? && h[i].pid == p && h[i].deed.Snapshot?
  }

  /** A write that went through, made by the automation rather than by an operator. */
  predicate Automated(e: Event) { Wrote(e) && e.deed.writer != Operator }

  predicate TurnsGreen(e: Event) { Automated(e) && e.deed.after.Some? && e.deed.after.value.status == Green }

  /** Event e is one the history h before it justifies. */
  ghost predicate Justified(h: seq<Event>, e: Event)
  {
    && (Automated(e) ==> !WaiverActive(e.deed.before, e.deed.now))
    && (IsWrite(e) && e.deed.writer == Final ==>
          Misses(h, e.pid) <= 2 && exists v :: PairOpen(h, e.pid, v) && (e.deed.wrote ==> CasHeld(h, v, e.deed)))
    && (Automated(e) && e.deed.writer == Fallback ==> exists i :: IsBegin(h, i, e.pid) && CasHeld(h, i, e.deed))
    && (Automated(e) && e.deed.writer == Finalizer ==> exists i :: IsBegin(h, i, e.pid) && Untouched(h, i, e.deed))
    && (TurnsGreen(e) ==>
          && e.deed.writer == Final
          && e.deed.after.value.reason == Some(Reason(Attested, false))
          && exists x :: GreenTrail(h, e, x))
  }

  ghost predicate AllJustified(t: seq<Event>)
  {
    forall i :: 0 <= i < |t| ==> Justified(t[..i], t[i])
  }

  // ------------------------------------------------------------ the invariant

  /** Tokens advance with every config transaction, and never repeat. */
  ghost predicate TokensOk(s: State)
  {
    && (forall i :: 0 <= i < |s.trace| && s.trace[i].Config? ==> s.trace[i].token <= s.generation)
    && (forall i, j :: 0 <= i < j < |s.trace| && s.trace[i].Config? && s.trace[j].Config? ==>
          s.trace[i].token < s.trace[j].token)
  }

  function Stamp(g: Option<Gate>): int
    requires g.Some?
  {
    g.value.updatedAt
  }

  /** No record in the trace is stamped later than the live one. */
  ghost predicate StampsOk(s: State)
  {
    forall k :: 0 <= k < |s.trace| && Wrote(s.trace[k]) ==>
      s.gate.Some? && s.trace[k].deed.after.Some? && Stamp(s.trace[k].deed.after) <= Stamp(s.gate)
  }

  /** Whatever was written after position i is stamped later than the record seen there. */
  ghost predicate Since(s: State, i: nat, seen: Option<Gate>)
  {
    && (seen.Some? ==> s.gate.Some? && Stamp(seen) <= Stamp(s.gate))
    && (forall k :: i < k < |s.trace| && Wrote(s.trace[k]) && s.trace[k].deed.after.Some? && seen.Some? ==>
          Stamp(seen) < Stamp(s.trace[k].deed.after))
  }

  ghost predicate LocksOk(s: State)
  {
    && (s.coverage.Some? ==> s.coverage.value in s.procs)
    && (s.handoff.Some? ==> s.handoff.value in s.procs && HoldsHandoff(s.procs[s.handoff.value].stage))
    && (forall p :: p in s.procs && HoldsCoverage(s.procs[p].stage) ==> s.coverage == Some(p))
    && (forall p :: p in s.procs && HoldsHandoff(s.procs[p].stage) ==> s.handoff == Some(p))
    && (forall p, q :: p in s.procs && q in s.procs && IsOpen(s.procs[p].stage) && IsOpen(s.procs[q].stage) ==> p == q)
  }

  predicate IsClean(m: Measurement)
  {
    m.complete && m.pathClear && m.passed && m.failure.None?
  }

  /** Before the command has run a process claims nothing. */
  predicate Untried(stage: Stage)
  {
    || stage.Ready? || stage.AwaitFirstHandoff? || stage.Provisioning? || stage.LeavingHandoff? || stage.Preflight?
    || stage.Running? || stage.FallingBack?
  }

  ghost predicate SawBefore(t: seq<Event>, p: Pid, x: Marks)
  {
    x.provisional < x.before < |t| && t[x.before] == PathsSeen(p, true, true)
  }

  ghost predicate SawCommand(t: seq<Event>, p: Pid, x: Marks, m: Measurement)
  {
    SawBefore(t, p, x) && x.before < x.command < |t| && t[x.command] == CommandRan(p, true, m.percent)
  }

  ghost predicate SawAfter(t: seq<Event>, p: Pid, x: Marks, m: Measurement)
  {
    SawCommand(t, p, x, m) && x.command < x.after < |t| && t[x.after] == PathsSeen(p, false, true)
  }

  ghost predicate SawFence(t: seq<Event>, p: Pid, x: Marks, m: Measurement, token: nat)
  {
    && SawAfter(t, p, x, m) && x.after < x.fence < |t|
    && t[x.fence].Config? && t[x.fence].pid == p && t[x.fence].token == token
    && (t[x.fence].deed.Fence? || t[x.fence].deed.Miss?)
  }

  ghost predicate SawProbe(t: seq<Event>, p: Pid, x: Marks, m: Measurement, token: nat)
  {
    SawFence(t, p, x, m, token) && x.fence < x.probe < |t| && t[x.probe] == Probed(p, true)
  }

  /** What a process's fields claim is what the trace shows. */
  ghost predicate FieldsOk(t: seq<Event>, p: Pid, q: Process)
  {
    && q.m.complete
    && (Untried(q.stage) ==> !q.m.passed)
    && (Untried(q.stage) || q.stage.Postflight? || q.stage.Fencing? ==> q.token.None? && !q.attested)
    && (q.stage.Running? ==> SawBefore(t, p, q.marks))
    && (q.stage.Postflight? && q.m.passed ==> SawCommand(t, p, q.marks, q.m))
    && (IsOpen(q.stage) && !q.stage.Postflight? && IsClean(q.m) ==> SawAfter(t, p, q.marks, q.m))
    && (q.stage.Fencing? || q.stage.Probing? ==> IsClean(q.m))
    && (q.stage.Probing? ==> q.token.Some? && !q.attested)
    && (q.stage.Reprobing? ==> q.token.Some?)
    && (q.token.Some? ==> IsClean(q.m))
    && (q.token.Some? && IsOpen(q.stage) ==> SawFence(t, p, q.marks, q.m, q.token.value))
    && (q.attested ==> q.token.Some?)
    && (q.attested && IsOpen(q.stage) && !q.stage.Reprobing? ==> SawProbe(t, p, q.marks, q.m, q.token.value))
  }

  ghost predicate MissesOk(t: seq<Event>, p: Pid, stage: Stage)
  {
    && Misses(t, p) <= 2
    && (IsOpen(stage) || Untried(stage) ==>
          Misses(t, p) == match stage case Committing(l) => 2 - l case Reprobing(l) => 3 - l case _ => 0)
    && (stage.Committing? ==> stage.left <= 2)
    && (stage.Reprobing? ==> 1 <= stage.left <= 2)
  }

  /** The records a process compares against are the ones the trace shows it took. */
  ghost predicate RecordsOk(s: State, p: Pid, q: Process)
  {
    && IsBegin(s.trace, q.marks.start, p) && Expected(s.trace[q.marks.start]) == q.snapshot
    && Since(s, q.marks.start, q.snapshot)
    && (IsOpen(q.stage) ==>
          && PairOpen(s.trace, p, q.marks.provisional)
          && Expected(s.trace[q.marks.provisional]) == q.expected
          && Since(s, q.marks.provisional, q.expected))
  }

  ghost predicate ProcessOk(s: State, p: Pid, q: Process)
  {
    FieldsOk(s.trace, p, q) && MissesOk(s.trace, p, q.stage) && RecordsOk(s, p, q)
  }

  ghost predicate Inv(s: State)
  {
    && TokensOk(s) && StampsOk(s) && LocksOk(s)
    && (forall p :: p in s.procs ==> ProcessOk(s, p, s.procs[p]))
    && (forall p :: p !in s.procs ==> Misses(s.trace, p) == 0)
  }

  // ------------------------------------------------------------ what a step may do

  lemma {:induction false} MissesOfAppend(h: seq<Event>, e: Event, p: Pid)
    ensures Misses(h + [e], p) == Misses(h, p) + if IsMiss(e, p) then 1 else 0
  {
    assert (h + [e])[..|h|] == h;
  }

  /** One event joins the trace, with the token and the gate it says. */
  ghost predicate Appends(s: State, next: State, e: Event)
  {
    && next.trace == s.trace + [e]
    && next.generation == (if e.Config? then s.generation + 1 else s.generation)
    && (e.Config? ==> e.token == next.generation)
    && if Wrote(e) then next.gate == e.deed.after && next.gate.Some? && (s.gate.Some? ==> Stamp(s.gate) < Stamp(next.gate))
       else next.gate == s.gate
  }

  ghost predicate Unmoved(s: State, next: State)
  {
    next.trace == s.trace && next.gate == s.gate && next.generation == s.generation
  }

  lemma {:induction false} TokensStay(s: State, next: State, e: Event)
    requires TokensOk(s) && Appends(s, next, e)
    ensures TokensOk(next)
  {
  }

  lemma {:induction false} StampsStay(s: State, next: State, e: Event)
    requires StampsOk(s) && Appends(s, next, e)
    ensures StampsOk(next)
  {
  }

  lemma {:induction false} FieldsStay(t: seq<Event>, e: Event, p: Pid, q: Process)
    requires FieldsOk(t, p, q)
    ensures FieldsOk(t + [e], p, q)
  {
  }

  lemma {:induction false} SinceStays(s: State, next: State, e: Event, i: nat, seen: Option<Gate>)
    requires Since(s, i, seen) && Appends(s, next, e)
    ensures Since(next, i, seen)
  {
  }

  /** moved keeps the records q had; nothing locked is written while moved is open. */
  lemma {:induction false} RecordsStay(s: State, next: State, e: Event, p: Pid, q: Process, moved: Process)
    requires RecordsOk(s, p, q) && Appends(s, next, e)
    requires moved.snapshot == q.snapshot && moved.marks.start == q.marks.start
    requires IsOpen(moved.stage) ==>
      IsOpen(q.stage) && !IsLocked(e) && moved.expected == q.expected && moved.marks.provisional == q.marks.provisional
    ensures RecordsOk(next, p, moved)
  {
    SinceStays(s, next, e, q.marks.start, q.snapshot);
    if IsOpen(moved.stage) {
      SinceStays(s, next, e, q.marks.provisional, q.expected);
    }
  }

  /** Only p's entry may change, and what p writes under the locks finds nobody else open. */
  ghost predicate OnlyMoves(s: State, next: State, p: Pid)
  {
    && p in next.procs
    && next.procs == s.procs[p := next.procs[p]]
  }

  lemma {:induction false} InvFromEvent(s: State, next: State, e: Event, p: Pid)
    requires Inv(s) && Appends(s, next, e) && OnlyMoves(s, next, p) && LocksOk(next)
    requires forall r: Pid :: r != p ==> !IsMiss(e, r)
    requires IsLocked(e) ==> forall r :: r in s.procs && IsOpen(s.procs[r].stage) ==> r == p
    requires ProcessOk(next, p, next.procs[p])
    ensures Inv(next)
  {
    TokensStay(s, next, e);
    StampsStay(s, next, e);
    forall r | r in next.procs ensures ProcessOk(next, r, next.procs[r]) {
      if r != p {
        MissesOfAppend(s.trace, e, r);
        FieldsStay(s.trace, e, r, s.procs[r]);
        RecordsStay(s, next, e, r, s.procs[r], s.procs[r]);
      }
    }
    forall r: Pid | r !in next.procs ensures Misses(next.trace, r) == 0 {
      MissesOfAppend(s.trace, e, r);
    }
  }

  lemma {:induction false} InvFromOutside(s: State, next: State, e: Event)
    requires Inv(s) && Appends(s, next, e) && next.procs == s.procs && next.coverage == s.coverage && next.handoff == s.handoff
    requires !IsLocked(e) && forall r: Pid :: !IsMiss(e, r)
    ensures Inv(next)
  {
    TokensStay(s, next, e);
    StampsStay(s, next, e);
    forall r | r in next.procs ensures ProcessOk(next, r, next.procs[r]) {
      MissesOfAppend(s.trace, e, r);
      FieldsStay(s.trace, e, r, s.procs[r]);
      RecordsStay(s, next, e, r, s.procs[r], s.procs[r]);
    }
    forall r: Pid | r !in next.procs ensures Misses(next.trace, r) == 0 {
      MissesOfAppend(s.trace, e, r);
    }
  }

  /** Records speak of the trace and the live gate only. */
  lemma {:induction false} RecordsLevel(s: State, next: State)
    requires Unmoved(s, next)
    ensures forall p: Pid, q: Process {:trigger RecordsOk(next, p, q)} :: RecordsOk(next, p, q) == RecordsOk(s, p, q)
    ensures TokensOk(next) == TokensOk(s) && StampsOk(next) == StampsOk(s)
  {
  }

  lemma {:induction false} InvFromMove(s: State, next: State, p: Pid)
    requires Inv(s) && Unmoved(s, next) && OnlyMoves(s, next, p) && LocksOk(next) && p in s.procs
    requires ProcessOk(next, p, next.procs[p])
    ensures Inv(next)
  {
    RecordsLevel(s, next);
    forall r | r in next.procs ensures ProcessOk(next, r, next.procs[r]) {
      assert r != p ==> ProcessOk(s, r, s.procs[r]);
    }
  }

  /** Lock owners after p alone has moved. */
  lemma {:induction false} LocksFromMover(s: State, next: State, p: Pid)
    requires LocksOk(s) && OnlyMoves(s, next, p)
    requires var c := HoldsCoverage(next.procs[p].stage);
      || (next.coverage == s.coverage && (c ==> s.coverage == Some(p)))
      || (next.coverage == None && s.coverage == Some(p) && !c)
      || (next.coverage == Some(p) && s.coverage == None)
    requires var h := HoldsHandoff(next.procs[p].stage);
      || (next.handoff == s.handoff && h == (s.handoff == Some(p)))
      || (next.handoff == None && s.handoff == Some(p) && !h)
      || (next.handoff == Some(p) && s.handoff == None && h)
    requires IsOpen(next.procs[p].stage) ==>
      p in s.procs && (IsOpen(s.procs[p].stage) || (s.coverage == Some(p) && s.handoff == Some(p)))
    ensures LocksOk(next)
  {
  }

  // ------------------------------------------------------------ steps outside the scans

  lemma {:induction false} OutsideKeeps(s: State, a: Action)
    requires Inv(s) && Enabled(s, a) && (a.OtherConfig? || a.OperatorSet? || a.OperatorWaive?)
    ensures Inv(Apply(s, a))
  {
    var next := Apply(s, a);
    InvFromOutside(s, next, next.trace[|s.trace|]);
  }

  lemma {:induction false} TickKeeps(s: State, now: int)
    requires Inv(s)
    ensures Inv(s.(clock := now))
  {
    var next := s.(clock := now);
    RecordsLevel(s, next);
    assert LocksOk(next);
    forall p | p in next.procs ensures ProcessOk(next, p, next.procs[p]) {
      assert ProcessOk(s, p, s.procs[p]);
    }
  }

  lemma {:induction false} ReclaimKeeps(s: State)
    requires Inv(s) && CoverageStranded(s)
    ensures Inv(s.(coverage := None))
  {
    var next := s.(coverage := None);
    RecordsLevel(s, next);
    assert LocksOk(next);
    forall p | p in next.procs ensures ProcessOk(next, p, next.procs[p]) {
      assert ProcessOk(s, p, s.procs[p]);
    }
  }

  // ------------------------------------------------------------ silent steps

  /** Stage changes that neither look at anything nor claim anything new. */
  ghost predicate Drifts(q: Process, moved: Process)
  {
    && moved == q.(stage := moved.stage, m := moved.m, token := moved.token, attested := moved.attested)
    && (IsOpen(moved.stage) ==> IsOpen(q.stage))
  }

  lemma {:induction false} SilentKeeps(s: State, next: State, p: Pid)
    requires Inv(s) && p in s.procs && Unmoved(s, next) && OnlyMoves(s, next, p) && LocksOk(next)
    requires Drifts(s.procs[p], next.procs[p])
    requires FieldsOk(s.trace, p, next.procs[p]) && MissesOk(s.trace, p, next.procs[p].stage)
    ensures Inv(next)
  {
    assert ProcessOk(s, p, s.procs[p]);
    InvFromMove(s, next, p);
  }

  lemma {:induction false} TurnAsideKeeps(s: State, p: Pid, stage: Stage)
    requires Inv(s) && At(s, p, Ready) && (stage.Finalizing? || stage.FallingBack?)
    ensures Inv(Move(s, p, s.procs[p].(stage := stage)))
  {
    var next := Move(s, p, s.procs[p].(stage := stage));
    assert ProcessOk(s, p, s.procs[p]);
    LocksFromMover(s, next, p);
    SilentKeeps(s, next, p);
  }

  lemma {:induction false} LeaveHandoffKeeps(s: State, p: Pid)
    requires Inv(s) && At(s, p, LeavingHandoff)
    ensures Inv(Apply(s, LeaveHandoff(p)))
  {
    var next := Apply(s, LeaveHandoff(p));
    assert ProcessOk(s, p, s.procs[p]);
    LocksFromMover(s, next, p);
    SilentKeeps(s, next, p);
  }

  lemma {:induction false} TakeCoverageKeeps(s: State, p: Pid)
    requires Inv(s) && Enabled(s, TakeCoverage(p))
    ensures Inv(Apply(s, TakeCoverage(p)))
  {
    var next := Apply(s, TakeCoverage(p));
    assert ProcessOk(s, p, s.procs[p]);
    LocksFromMover(s, next, p);
    SilentKeeps(s, next, p);
  }

  lemma {:induction false} TakeHandoffKeeps(s: State, p: Pid)
    requires Inv(s) && Enabled(s, TakeHandoff(p))
    ensures Inv(Apply(s, TakeHandoff(p)))
  {
    var next := Apply(s, TakeHandoff(p));
    assert ProcessOk(s, p, s.procs[p]);
    LocksFromMover(s, next, p);
    SilentKeeps(s, next, p);
  }

  lemma {:induction false} FenceFailsKeeps(s: State, p: Pid)
    requires Inv(s) && At(s, p, Fencing)
    ensures Inv(Apply(s, FenceFails(p)))
  {
    var next := Apply(s, FenceFails(p));
    assert ProcessOk(s, p, s.procs[p]);
    LocksFromMover(s, next, p);
    SilentKeeps(s, next, p);
  }

  lemma {:induction false} ReleaseKeeps(s: State, p: Pid)
    requires Inv(s) && At(s, p, Releasing)
    ensures Inv(ReleaseStep(s, p))
  {
    var next := ReleaseStep(s, p);
    assert ProcessOk(s, p, s.procs[p]);
    LocksFromMover(s, next, p);
    SilentKeeps(s, next, p);
  }

  lemma {:induction false} ReleaseFailsKeeps(s: State, p: Pid, stillHeld: bool)
    requires Inv(s) && At(s, p, Releasing)
    ensures Inv(ReleaseFailsStep(s, p, stillHeld))
  {
    var next := ReleaseFailsStep(s, p, stillHeld);
    assert ProcessOk(s, p, s.procs[p]);
    LocksFromMover(s, next, p);
    SilentKeeps(s, next, p);
  }

  lemma {:induction false} LeaveKeeps(s: State, p: Pid, stage: Stage)
    requires Inv(s) && p in s.procs && (stage.Done? || stage.Finalizing?)
    ensures Inv(LeaveStep(s, p, stage))
  {
    var next := LeaveStep(s, p, stage);
    assert ProcessOk(s, p, s.procs[p]);
    LocksFromMover(s, next, p);
    SilentKeeps(s, next, p);
  }

  // ------------------------------------------------------------ sightings

  lemma {:induction false} SightingKeeps(s: State, next: State, e: Event, p: Pid)
    requires Inv(s) && p in s.procs && Appends(s, next, e) && OnlyMoves(s, next, p) && !e.Config?
    requires next.coverage == s.coverage && next.handoff == s.handoff
    requires var q, moved := s.procs[p], next.procs[p];
      && moved.snapshot == q.snapshot && moved.expected == q.expected
      && moved.marks.start == q.marks.start && moved.marks.provisional == q.marks.provisional
      && HoldsCoverage(moved.stage) == HoldsCoverage(q.stage) && HoldsHandoff(moved.stage) == HoldsHandoff(q.stage)
      && IsOpen(moved.stage) == IsOpen(q.stage)
      && FieldsOk(next.trace, p, moved) && MissesOk(next.trace, p, moved.stage)
    ensures Inv(next)
  {
    LocksFromMover(s, next, p);
    RecordsStay(s, next, e, p, s.procs[p], next.procs[p]);
    InvFromEvent(s, next, e, p);
  }

  lemma {:induction false} LookBeforeKeeps(s: State, p: Pid, clear: bool)
    requires Inv(s) && At(s, p, Preflight)
    ensures Inv(LookBeforeStep(s, p, clear))
  {
    var e := PathsSeen(p, true, clear);
    assert ProcessOk(s, p, s.procs[p]);
    MissesOfAppend(s.trace, e, p);
    SightingKeeps(s, LookBeforeStep(s, p, clear), e, p);
  }

  lemma {:induction false} RunCommandKeeps(s: State, p: Pid, passed: bool, percent: Option<nat>, raised: bool)
    requires Inv(s) && At(s, p, Running)
    ensures Inv(RunCommandStep(s, p, passed, percent, raised))
  {
    var next := RunCommandStep(s, p, passed, percent, raised);
    var e := next.trace[|s.trace|];
    assert ProcessOk(s, p, s.procs[p]);
    MissesOfAppend(s.trace, e, p);
    SightingKeeps(s, next, e, p);
  }

  lemma {:induction false} LookAfterKeeps(s: State, p: Pid, clear: bool)
    requires Inv(s) && At(s, p, Postflight)
    ensures Inv(LookAfterStep(s, p, clear))
  {
    var e := PathsSeen(p, false, clear);
    assert ProcessOk(s, p, s.procs[p]);
    MissesOfAppend(s.trace, e, p);
    SightingKeeps(s, LookAfterStep(s, p, clear), e, p);
  }

  lemma {:induction false} AskGitKeeps(s: State, p: Pid, clean: bool)
    requires Inv(s) && At(s, p, Probing)
    ensures Inv(AskGitStep(s, p, clean))
  {
    var e := Probed(p, clean);
    assert ProcessOk(s, p, s.procs[p]);
    MissesOfAppend(s.trace, e, p);
    SightingKeeps(s, AskGitStep(s, p, clean), e, p);
  }

  lemma {:induction false} ReprobeFields(t: seq<Event>, p: Pid, q: Process, seen: bool)
    requires FieldsOk(t, p, q) && q.stage.Reprobing? && q.stage.left > 0
    ensures FieldsOk(t + [Probed(p, seen)], p,
                     q.(stage := Committing(q.stage.left - 1), attested := seen, marks := q.marks.(probe := |t|)))
  {
    FieldsStay(t, Probed(p, seen), p, q);
  }

  lemma {:induction false} ReprobeMisses(t: seq<Event>, p: Pid, stage: Stage, seen: bool)
    requires MissesOk(t, p, stage) && stage.Reprobing? && stage.left > 0
    ensures MissesOk(t + [Probed(p, seen)], p, Committing(stage.left - 1))
  {
    MissesOfAppend(t, Probed(p, seen), p);
  }

  lemma {:induction false} AskGitAgainRecords(s: State, p: Pid, clean: bool)
    requires Enabled(s, AskGitAgain(p, clean)) && RecordsOk(s, p, s.procs[p])
    ensures var next := AskGitAgainStep(s, p, clean); RecordsOk(next, p, next.procs[p])
  {
    var next := AskGitAgainStep(s, p, clean);
    RecordsStay(s, next, next.trace[|s.trace|], p, s.procs[p], next.procs[p]);
  }

  lemma {:induction false} AskGitAgainProcess(s: State, p: Pid, clean: bool)
    requires Enabled(s, AskGitAgain(p, clean)) && ProcessOk(s, p, s.procs[p])
    ensures var next := AskGitAgainStep(s, p, clean); ProcessOk(next, p, next.procs[p])
  {
    var q := s.procs[p];
    var seen := clean && q.m.pathClear;
    ReprobeMisses(s.trace, p, q.stage, seen);
    ReprobeFields(s.trace, p, q, seen);
    AskGitAgainRecords(s, p, clean);
  }

  lemma {:induction false} AskGitAgainKeeps(s: State, p: Pid, clean: bool)
    requires Inv(s) && Enabled(s, AskGitAgain(p, clean))
    ensures Inv(AskGitAgainStep(s, p, clean))
  {
    var next := AskGitAgainStep(s, p, clean);
    AskGitAgainProcess(s, p, clean);
    LocksFromMover(s, next, p);
    InvFromEvent(s, next, next.trace[|s.trace|], p);
  }

  // ------------------------------------------------------------ config transactions

  lemma {:induction false} BeginKeeps(s: State, p: Pid, revision: Option<nat>)
    requires Inv(s) && p !in s.procs
    ensures Inv(Apply(s, Begin(p, revision)))
  {
    var next := Apply(s, Begin(p, revision));
    var e := Config(p, s.generation + 1, Snapshot(s.gate));
    MissesOfAppend(s.trace, e, p);
    LocksFromMover(s, next, p);
    InvFromEvent(s, next, e, p);
  }

  lemma {:induction false} FenceKeeps(s: State, p: Pid)
    requires Inv(s) && At(s, p, Fencing)
    ensures Inv(FenceStep(s, p))
  {
    var next := FenceStep(s, p);
    var e := Config(p, s.generation + 1, Fence);
    assert ProcessOk(s, p, s.procs[p]);
    MissesOfAppend(s.trace, e, p);
    LocksFromMover(s, next, p);
    RecordsStay(s, next, e, p, s.procs[p], next.procs[p]);
    InvFromEvent(s, next, e, p);
  }

  /** The last write of a scan: nothing is claimed afterwards. */
  ghost predicate SaysFarewell(was: Stage, now: Stage, e: Event)
  {
    || ((was.FallingBack? || was.Finalizing?) && now.Done? && !IsLocked(e))
    || (was.Committing? && now.Closing?)
  }

  lemma {:induction false} FarewellProcess(s: State, next: State, e: Event, p: Pid, q: Process, stage: Stage)
    requires ProcessOk(s, p, q) && Appends(s, next, e) && !IsMiss(e, p) && SaysFarewell(q.stage, stage, e)
    ensures ProcessOk(next, p, q.(stage := stage))
  {
    MissesOfAppend(s.trace, e, p);
    FieldsStay(s.trace, e, p, q);
    RecordsStay(s, next, e, p, q, q.(stage := stage));
  }

  lemma {:induction false} FarewellKeeps(s: State, next: State, e: Event, p: Pid)
    requires Inv(s) && p in s.procs && Appends(s, next, e) && OnlyMoves(s, next, p)
    requires next.coverage == s.coverage && next.handoff == s.handoff && !IsMiss(e, p) && e.pid == p
    requires next.procs[p] == s.procs[p].(stage := next.procs[p].stage)
    requires SaysFarewell(s.procs[p].stage, next.procs[p].stage, e)
    ensures Inv(next)
  {
    FarewellProcess(s, next, e, p, s.procs[p], next.procs[p].stage);
    LocksFromMover(s, next, p);
    InvFromEvent(s, next, e, p);
  }

  lemma {:induction false} FallbackKeeps(s: State, p: Pid)
    requires Inv(s) && At(s, p, FallingBack)
    ensures Inv(FallbackStep(s, p))
  {
    var next := FallbackStep(s, p);
    FarewellKeeps(s, next, next.trace[|s.trace|], p);
  }

  lemma {:induction false} InvalidateKeeps(s: State, p: Pid)
    requires Inv(s) && At(s, p, Finalizing)
    ensures Inv(InvalidateStep(s, p))
  {
    var next := InvalidateStep(s, p);
    FarewellKeeps(s, next, next.trace[|s.trace|], p);
  }

  lemma {:induction false} ProvisionalKeeps(s: State, p: Pid)
    requires Inv(s) && At(s, p, Provisioning)
    ensures Inv(ProvisionalStep(s, p))
  {
    var next := ProvisionalStep(s, p);
    var e := next.trace[|s.trace|];
    var q, moved := s.procs[p], next.procs[p];
    assert ProcessOk(s, p, q);
    MissesOfAppend(s.trace, e, p);
    LocksFromMover(s, next, p);
    RecordsStay(s, next, e, p, q, moved.(stage := Done));
    InvFromEvent(s, next, e, p);
  }

  lemma {:induction false} MissFields(t: seq<Event>, p: Pid, q: Process, token: nat)
    requires FieldsOk(t, p, q) && q.stage.Committing? && q.token.Some?
    ensures FieldsOk(t + [Config(p, token, Miss)], p,
                     q.(stage := Reprobing(q.stage.left), token := Some(token), marks := q.marks.(fence := |t|)))
  {
    FieldsStay(t, Config(p, token, Miss), p, q);
  }

  lemma {:induction false} MissMisses(t: seq<Event>, p: Pid, stage: Stage, token: nat)
    requires MissesOk(t, p, stage) && stage.Committing? && stage.left > 0
    ensures MissesOk(t + [Config(p, token, Miss)], p, Reprobing(stage.left))
  {
    MissesOfAppend(t, Config(p, token, Miss), p);
  }

  lemma {:induction false} MissRecords(s: State, p: Pid)
    requires p in s.procs && s.procs[p].stage.Committing? && RecordsOk(s, p, s.procs[p])
    ensures RecordsOk(MissStep(s, p), p, MissStep(s, p).procs[p])
  {
    var next := MissStep(s, p);
    RecordsStay(s, next, Config(p, s.generation + 1, Miss), p, s.procs[p], next.procs[p]);
  }

  lemma {:induction false} MissProcess(s: State, p: Pid)
    requires p in s.procs && s.procs[p].stage.Committing? && s.procs[p].stage.left > 0 && s.procs[p].token.Some?
    requires ProcessOk(s, p, s.procs[p])
    ensures ProcessOk(MissStep(s, p), p, MissStep(s, p).procs[p])
  {
    MissMisses(s.trace, p, s.procs[p].stage, s.generation + 1);
    MissFields(s.trace, p, s.procs[p], s.generation + 1);
    MissRecords(s, p);
  }

  lemma {:induction false} MissKeeps(s: State, p: Pid)
    requires Inv(s) && p in s.procs
    requires s.procs[p].stage.Committing? && s.procs[p].stage.left > 0 && s.procs[p].token.Some?
    ensures Inv(MissStep(s, p))
  {
    var next := MissStep(s, p);
    MissProcess(s, p);
    LocksFromMover(s, next, p);
    InvFromEvent(s, next, Config(p, s.generation + 1, Miss), p);
  }

  lemma {:induction false} FinalKeeps(s: State, p: Pid)
    requires Inv(s) && p in s.procs && s.procs[p].stage.Committing?
    ensures Inv(FinalStep(s, p))
  {
    var next := FinalStep(s, p);
    FarewellKeeps(s, next, next.trace[|s.trace|], p);
  }

  lemma {:induction false} CommitKeeps(s: State, p: Pid)
    requires Inv(s) && Enabled(s, TryCommit(p))
    ensures Inv(TryCommitStep(s, p))
  {
    if FenceHolds(s, s.procs[p]) || s.procs[p].stage.left == 0 {
      FinalKeeps(s, p);
    } else {
      MissKeeps(s, p);
    }
  }

  /** The steps that take, pass on or give back locks without an event of their own. */
  predicate IsSilent(a: Action)
  {
    || a.Tick? || a.Reclaim? || a.SkipCoverage? || a.TakeCoverage? || a.CoverageUnavailable? || a.TakeHandoff? || a.LeaveHandoff?
    || a.FenceFails? || a.ReleaseCoverage? || a.ReleaseFails? || a.CloseHandoff? || a.Abort? || a.Crash?
  }

  lemma {:induction false} SilentStepKeeps(s: State, a: Action)
    requires Inv(s) && Enabled(s, a) && IsSilent(a)
    ensures Inv(Apply(s, a))
  {
    match a
    case Tick(now) => TickKeeps(s, now);
    case Reclaim => ReclaimKeeps(s);
    case SkipCoverage(p) => TurnAsideKeeps(s, p, Finalizing);
    case TakeCoverage(p) => TakeCoverageKeeps(s, p);
    case CoverageUnavailable(p) => TurnAsideKeeps(s, p, FallingBack);
    case TakeHandoff(p) => TakeHandoffKeeps(s, p);
    case LeaveHandoff(p) => LeaveHandoffKeeps(s, p);
    case FenceFails(p) => FenceFailsKeeps(s, p);
    case ReleaseCoverage(p) => ReleaseKeeps(s, p);
    case ReleaseFails(p, stillHeld) => ReleaseFailsKeeps(s, p, stillHeld);
    case CloseHandoff(p) => LeaveKeeps(s, p, Done);
    case Abort(p) => LeaveKeeps(s, p, Finalizing);
    case Crash(p) => LeaveKeeps(s, p, Done);
  }

  lemma {:induction false} TracedStepKeeps(s: State, a: Action)
    requires Inv(s) && Enabled(s, a) && !IsSilent(a)
    ensures Inv(Apply(s, a))
  {
    match a
    case OtherConfig(_) => OutsideKeeps(s, a);
    case OperatorSet(_, _, _, _, _, _, _) => OutsideKeeps(s, a);
    case OperatorWaive(_, _, _) => OutsideKeeps(s, a);
    case Begin(p, revision) => BeginKeeps(s, p, revision);
    case EmitFallback(p) => FallbackKeeps(s, p);
    case EmitProvisional(p) => ProvisionalKeeps(s, p);
    case LookBefore(p, clear) => LookBeforeKeeps(s, p, clear);
    case RunCommand(p, passed, percent, raised) => RunCommandKeeps(s, p, passed, percent, raised);
    case LookAfter(p, clear) => LookAfterKeeps(s, p, clear);
    case TakeFence(p) => FenceKeeps(s, p);
    case AskGit(p, clean) => AskGitKeeps(s, p, clean);
    case TryCommit(p) => CommitKeeps(s, p);
    case AskGitAgain(p, clean) => AskGitAgainKeeps(s, p, clean);
    case Invalidate(p) => InvalidateKeeps(s, p);
  }

  /** Every step of every process, of an operator and of the world around keeps the invariant. */
  lemma {:induction false} StepKeeps(s: State, a: Action)
    requires Inv(s) && Enabled(s, a)
    ensures Inv(Apply(s, a))
  {
    if IsSilent(a) {
      SilentStepKeeps(s, a);
    } else {
      TracedStepKeeps(s, a);
    }
  }

  // ------------------------------------------------------------ every event is justified

  /** A record found unchanged since position i means that nothing was written in between. */
  lemma {:induction false} FoundMeansUntouched(s: State, i: nat, seen: Option<Gate>)
    requires StampsOk(s) && Since(s, i, seen) && s.gate == seen
    ensures NothingWritten(s.trace, i)
  {
  }

  /** A token that has not moved since its fence: no config transaction came after it. */
  lemma {:induction false} FenceUnmoved(s: State, fence: nat)
    requires TokensOk(s) && fence < |s.trace| && s.trace[fence].Config? && s.trace[fence].token == s.generation
    ensures forall k :: fence < k < |s.trace| ==> !s.trace[k].Config?
  {
  }

  /** The trace of next adds nothing that the trace of s does not justify. */
  ghost predicate Grounded(s: State, next: State)
  {
    next.trace == s.trace || exists e :: next.trace == s.trace + [e] && Justified(s.trace, e)
  }

  lemma {:induction false} GroundedBy(s: State, next: State)
    requires |next.trace| == |s.trace| + 1 && s.trace == next.trace[..|s.trace|]
    requires Justified(s.trace, next.trace[|s.trace|])
    ensures Grounded(s, next)
  {
    assert next.trace == s.trace + [next.trace[|s.trace|]];
  }

  lemma {:induction false} FallbackJustified(s: State, p: Pid)
    requires Inv(s) && At(s, p, FallingBack)
    ensures Justified(s.trace, FallbackStep(s, p).trace[|s.trace|])
  {
    var q := s.procs[p];
    var e := FallbackStep(s, p).trace[|s.trace|];
    assert ProcessOk(s, p, q);
    if s.gate == q.snapshot {
      FoundMeansUntouched(s, q.marks.start, q.snapshot);
    }
    assert Automated(e) ==> IsBegin(s.trace, q.marks.start, p) && CasHeld(s.trace, q.marks.start, e.deed);
  }

  lemma {:induction false} InvalidationJustified(s: State, p: Pid)
    requires Inv(s) && At(s, p, Finalizing)
    ensures Justified(s.trace, InvalidateStep(s, p).trace[|s.trace|])
  {
    var q := s.procs[p];
    var e := InvalidateStep(s, p).trace[|s.trace|];
    assert ProcessOk(s, p, q);
    if s.gate == q.snapshot {
      FoundMeansUntouched(s, q.marks.start, q.snapshot);
    }
    assert Automated(e) ==> IsBegin(s.trace, q.marks.start, p) && Untouched(s.trace, q.marks.start, e.deed);
  }

  lemma {:induction false} FinalTrail(s: State, p: Pid)
    requires Inv(s) && p in s.procs && s.procs[p].stage.Committing?
    requires TurnsGreen(FinalStep(s, p).trace[|s.trace|])
    requires CasHeld(s.trace, s.procs[p].marks.provisional, FinalStep(s, p).trace[|s.trace|].deed)
    ensures GreenTrail(s.trace, FinalStep(s, p).trace[|s.trace|], s.procs[p].marks)
  {
    assert ProcessOk(s, p, s.procs[p]);
    FenceUnmoved(s, s.procs[p].marks.fence);
  }

  lemma {:induction false} FinalJustified(s: State, p: Pid)
    requires Inv(s) && p in s.procs && s.procs[p].stage.Committing?
    ensures Justified(s.trace, FinalStep(s, p).trace[|s.trace|])
  {
    var q := s.procs[p];
    var e := FinalStep(s, p).trace[|s.trace|];
    var v := q.marks.provisional;
    assert ProcessOk(s, p, q);
    if s.gate == q.expected {
      FoundMeansUntouched(s, v, q.expected);
    }
    assert PairOpen(s.trace, p, v) && (e.deed.wrote ==> CasHeld(s.trace, v, e.deed));
    if TurnsGreen(e) {
      FinalTrail(s, p);
    }
  }

  lemma {:induction false} CommitJustified(s: State, p: Pid)
    requires Inv(s) && Enabled(s, TryCommit(p))
    ensures Grounded(s, TryCommitStep(s, p))
  {
    if FenceHolds(s, s.procs[p]) || s.procs[p].stage.left == 0 {
      FinalJustified(s, p);
      GroundedBy(s, FinalStep(s, p));
    } else {
      GroundedBy(s, MissStep(s, p));
    }
  }

  lemma {:induction false} PlainJustified(s: State, a: Action)
    requires Enabled(s, a) && !a.EmitFallback? && !a.Invalidate? && !a.TryCommit?
    ensures Grounded(s, Apply(s, a))
  {
    var next := Apply(s, a);
    if next.trace != s.trace {
      var e := next.trace[|s.trace|];
      assert next.trace == s.trace + [e];
      assert !IsWrite(e) || e.deed.writer.Operator? || e.deed.writer.Provisional?;
      assert Justified(s.trace, e);
    }
  }

  lemma {:induction false} EventJustified(s: State, a: Action)
    requires Inv(s) && Enabled(s, a)
    ensures Grounded(s, Apply(s, a))
  {
    match a
    case EmitFallback(p) =>
      FallbackJustified(s, p);
      GroundedBy(s, FallbackStep(s, p));
    case Invalidate(p) =>
      InvalidationJustified(s, p);
      GroundedBy(s, InvalidateStep(s, p));
    case TryCommit(p) => CommitJustified(s, p);
    case _ => PlainJustified(s, a);
  }

  lemma {:induction false} JustifiedOfAppend(h: seq<Event>, e: Event)
    requires AllJustified(h) && Justified(h, e)
    ensures AllJustified(h + [e])
  {
    forall i | 0 <= i < |h + [e]| ensures Justified((h + [e])[..i], (h + [e])[i]) {
      assert (h + [e])[..i] == h[..i];
      assert h[..|h|] == h;
    }
  }

  // ------------------------------------------------------------ main results

  /** In every run, each event is one its history justifies, and the invariant holds throughout. */
  lemma {:induction false} RunsAreJustified(states: seq<State>, actions: seq<Action>, n: nat)
    requires IsRun(states, actions) && n < |states|
    ensures Inv(states[n]) && AllJustified(states[n].trace)
  {
    if n > 0 {
      RunsAreJustified(states, actions, n - 1);
      var s, a := states[n - 1], actions[n - 1];
      StepKeeps(s, a);
      EventJustified(s, a);
      if states[n].trace != s.trace {
        var e :| states[n].trace == s.trace + [e] && Justified(s.trace, e);
        JustifiedOfAppend(s.trace, e);
      }
    }
  }

  /** A final write follows its own provisional write, with no other locked write between them. */
  lemma {:induction false} PairsDoNotInterleave(states: seq<State>, actions: seq<Action>, n: nat, i: nat)
    requires IsRun(states, actions) && n < |states| && i < |states[n].trace|
    requires IsWrite(states[n].trace[i]) && states[n].trace[i].deed.writer == Final
    ensures exists v :: PairOpen(states[n].trace[..i], states[n].trace[i].pid, v)
  {
    RunsAreJustified(states, actions, n);
    assert Justified(states[n].trace[..i], states[n].trace[i]);
  }

  /** No automated write replaces a waiver that is active at that moment. */
  lemma {:induction false} ActiveWaiverSurvives(states: seq<State>, actions: seq<Action>, n: nat, i: nat)
    requires IsRun(states, actions) && n < |states| && i < |states[n].trace| && Automated(states[n].trace[i])
    ensures !WaiverActive(states[n].trace[i].deed.before, states[n].trace[i].deed.now)
    ensures match states[n].trace[i].deed.before
            case Some(g) => g.status == Waived && g.waiver.Some? && g.waiver.value.complete ==>
              g.waiver.value.expires < states[n].trace[i].deed.now
            case None => true
  {
    RunsAreJustified(states, actions, n);
    assert Justified(states[n].trace[..i], states[n].trace[i]);
  }

  /** The reds written without the locks give way to every write since their scan began. */
  lemma {:induction false} UnlockedRedsYield(states: seq<State>, actions: seq<Action>, n: nat, i: nat)
    requires IsRun(states, actions) && n < |states| && i < |states[n].trace| && Automated(states[n].trace[i])
    ensures var h, e := states[n].trace[..i], states[n].trace[i];
      && (e.deed.writer == Finalizer ==> exists b :: IsBegin(h, b, e.pid) && Untouched(h, b, e.deed))
      && (e.deed.writer == Fallback ==> exists b :: IsBegin(h, b, e.pid) && CasHeld(h, b, e.deed))
  {
    RunsAreJustified(states, actions, n);
    assert Justified(states[n].trace[..i], states[n].trace[i]);
  }

  /** The final emission of a scan takes the config lock at most three times, the write included. */
  lemma {:induction false} ThreeAcquisitionsAtMost(states: seq<State>, actions: seq<Action>, n: nat, p: Pid)
    requires IsRun(states, actions) && n < |states|
    ensures Misses(states[n].trace, p) <= 2
    ensures p in states[n].procs && states[n].procs[p].stage.Committing? ==>
      Misses(states[n].trace, p) + 1 + states[n].procs[p].stage.left == 3
  {
    RunsAreJustified(states, actions, n);
    if p in states[n].procs {
      assert ProcessOk(states[n], p, states[n].procs[p]);
    }
  }

  predicate Blocked(s: State, p: Pid)
    requires p in s.procs
  {
    var stage := s.procs[p].stage;
    (stage.Ready? && s.coverage.Some?) || ((stage.AwaitFirstHandoff? || stage.AwaitSecondHandoff?) && s.handoff.Some?)
  }

  /** The step an unblocked process takes when nothing fails. */
  function NextAction(s: State, p: Pid): (a: Action)
    requires p in s.procs && !s.procs[p].stage.Done? && !Blocked(s, p)
    requires s.procs[p].stage.Reprobing? ==> s.procs[p].stage.left > 0
    ensures Enabled(s, a)
    ensures Apply(s, a).procs.Keys == s.procs.Keys && Apply(s, a).procs[p].stage != s.procs[p].stage
  {
    match s.procs[p].stage
    case Ready => TakeCoverage(p)
    case AwaitFirstHandoff => TakeHandoff(p)
    case Provisioning => EmitProvisional(p)
    case LeavingHandoff => LeaveHandoff(p)
    case Preflight => LookBefore(p, true)
    case Running => RunCommand(p, true, Some(100), false)
    case Postflight => LookAfter(p, true)
    case Fencing => TakeFence(p)
    case Probing => AskGit(p, true)
    case AwaitSecondHandoff => TakeHandoff(p)
    case Releasing => ReleaseCoverage(p)
    case Committing(_) => TryCommit(p)
    case Reprobing(_) => AskGitAgain(p, true)
    case Closing => CloseHandoff(p)
    case FallingBack => EmitFallback(p)
    case Finalizing => Invalidate(p)
  }

  lemma {:induction false} WaitsEnd(s: State, p: Pid)
    requires LocksOk(s) && p in s.procs && !s.procs[p].stage.Done?
    ensures CoverageStranded(s) || exists q :: q in s.procs && !s.procs[q].stage.Done? && !Blocked(s, q)
  {
    if Blocked(s, p) {
      if s.handoff.Some? {
        assert !Blocked(s, s.handoff.value);
      } else {
        assert CoverageStranded(s) || !Blocked(s, s.coverage.value);
      }
    }
  }

  /** While a scan is unfinished, some scan is not waiting, or a dead coverage marker can be reclaimed. */
  lemma {:induction false} LocksCannotDeadlock(states: seq<State>, actions: seq<Action>, n: nat, p: Pid)
    requires IsRun(states, actions) && n < |states|
    requires p in states[n].procs && !states[n].procs[p].stage.Done?
    ensures CoverageStranded(states[n])
            || exists q :: q in states[n].procs && !states[n].procs[q].stage.Done? && !Blocked(states[n], q)
  {
    RunsAreJustified(states, actions, n);
    WaitsEnd(states[n], p);
  }
}
