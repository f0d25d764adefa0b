/**
 * The life of a blob, as interleaved steps of uploads, purges, the janitor's sweep and crashes. An upload writes its
 * file before it commits the row; a purge deletes the row before the file; the sweep reads the references first and
 * fixes its cutoff later. None of them excludes the others.
 */
module Lifecycle {
  import opened Blobs

  datatype Phase = Writing(temp: string) | Placed

  datatype Upload = Upload(started: int, phase: Phase)

  datatype Sweep =
    | Idle
    | Scanned(referenced: set<string>, at: int)
    | Walking(referenced: set<string>, cutoff: int, todo: set<string>, failed: bool)

  /** `doomed` are files about to be deleted; `used` every blob path ever chosen. */
  datatype State = State(
    now: int, rows: set<string>, files: map<string, int>,
    uploads: map<string, Upload>, doomed: set<string>, used: set<string>, sweep: Sweep)

  /** The grace period, and bounds on the duration of an upload and on the time from reference scan to cutoff. */
  datatype Timing = Timing(grace: nat, upload: nat, gap: nat)

  datatype Step =
    | Tick(d: nat)
    | Begin(b: string, temp: string)
    | Append(b: string)
    | Place(b: string)
    | Abort(b: string, cleaned: bool)
    | Commit(b: string)
    | Reject(b: string)
    | Purge(gone: set<string>)
    | Delete(b: string, ok: bool)
    | Crash
    | Scan
    | Cutoff
    | Visit(f: string, ok: bool)
    | Finish

  ghost predicate InPhase(s: State, b: string, placed: bool) {
    b in s.uploads && s.uploads[b].phase.Placed? == placed
  }

  ghost predicate Enabled(t: Timing, s: State, step: Step) {
    match step
    case Tick(d) =>
      && (forall b :: b in s.uploads ==> s.now + d - s.uploads[b].started <= t.upload)
      && (s.sweep.Scanned? ==> s.now + d - s.sweep.at <= t.gap)
    case Begin(b, temp) =>
      b !in s.used && IsBlob(b) && !IsTempLeftover(b) && IsTempLeftover(temp) && !IsBlob(temp) && temp !in s.files
    case Append(b) => InPhase(s, b, false)
    case Place(b) => InPhase(s, b, false)
    case Abort(b, _) => InPhase(s, b, false)
    case Commit(b) => InPhase(s, b, true)
    case Reject(b) => InPhase(s, b, true)
    case Purge(gone) => gone <= s.rows
    case Delete(b, _) => b in s.doomed
    case Crash => true
    case Scan => s.sweep.Idle?
    case Cutoff => s.sweep.Scanned?
    case Visit(_, _) => s.sweep.Walking?
    case Finish => s.sweep.Walking? && s.sweep.todo == {}
  }

  ghost function Apply(t: Timing, s: State, step: Step): State
    requires Enabled(t, s, step)
  {
    match step
    case Tick(d) => s.(now := s.now + d)
    case Begin(b, temp) =>
      s.(used := s.used + {b}, files := s.files[temp := s.now], uploads := s.uploads[b := Upload(s.now, Writing(temp))])
    case Append(b) =>
      var temp := s.uploads[b].phase.temp;
      if temp in s.files then s.(files := s.files[temp := s.now]) else s
    case Place(b) =>
      var temp := s.uploads[b].phase.temp;
      if temp in s.files
      then s.(files := (s.files - {temp})[b := s.files[temp]],
        uploads := s.uploads[b := s.uploads[b].(phase := Placed)])
      else s.(uploads := s.uploads - {b})
    case Abort(b, cleaned) =>
      s.(files := if cleaned then s.files - {s.uploads[b].phase.temp} else s.files, uploads := s.uploads - {b})
    case Commit(b) => s.(rows := s.rows + {b}, uploads := s.uploads - {b})
    case Reject(b) => s.(doomed := s.doomed + {b}, uploads := s.uploads - {b})
    case Purge(gone) => s.(rows := s.rows - gone, doomed := s.doomed + gone)
    case Delete(b, ok) => s.(files := if ok then s.files - {b} else s.files, doomed := s.doomed - {b})
    case Crash => s.(uploads := map[], doomed := {}, sweep := Idle)
    case Scan => s.(sweep := Scanned(s.rows, s.now))
    case Cutoff => s.(sweep := Walking(s.sweep.referenced, s.now - t.grace, s.files.Keys, false))
    case Visit(f, ok) =>
      var w := s.sweep.(todo := s.sweep.todo - {f});
      if f !in s.files || !Reapable(f, s.files[f], w.referenced, w.cutoff) then s.(sweep := w)
      else if ok then s.(sweep := w, files := s.files - {f})
      else s.(sweep := w.(failed := true))
    case Finish => s.(sweep := Idle)
  }

  // --- Runs ---

  /** At start-up nothing is under way, and every row's blob is on disk. */
  ghost predicate Init(s: State) {
    && s.uploads == map[] && s.doomed == {} && s.sweep == Idle
    && s.rows <= s.files.Keys && s.rows <= s.used && (forall b :: b in s.rows ==> IsBlob(b))
  }

  ghost predicate Run(t: Timing, states: seq<State>, steps: seq<Step>) {
    && |states| == |steps| + 1 && Init(states[0])
    && forall i :: 0 <= i < |steps| ==>
      Enabled(t, states[i], steps[i]) && states[i + 1] == Apply(t, states[i], steps[i])
  }

  /** No row points at a missing blob. */
  ghost predicate Safe(s: State) {
    s.rows <= s.files.Keys
  }

  /** Uploads and the scan's delay fit into the grace period together. */
  ghost predicate Roomy(t: Timing) {
    t.upload + t.gap <= t.grace
  }

  // --- The invariant ---

  /** An upload under way owns its file, which is at least as recent as its start. */
  ghost predicate UploadOk(t: Timing, s: State, b: string)
    requires b in s.uploads
  {
    var u := s.uploads[b];
    && u.started <= s.now <= u.started + t.upload
    && b in s.used && b !in s.rows && b !in s.doomed && IsBlob(b) && !IsTempLeftover(b)
    && match u.phase
       case Placed => b in s.files && s.files[b] >= u.started
       case Writing(temp) => IsTempLeftover(temp) && !IsBlob(temp) && temp in s.files && s.files[temp] >= u.started
  }

  ghost predicate TempsApart(s: State) {
    forall b, c ::
      InPhase(s, b, false) && InPhase(s, c, false) && s.uploads[b].phase.temp == s.uploads[c].phase.temp ==> b == c
  }

  ghost predicate SweepOk(t: Timing, s: State) {
    match s.sweep
    case Idle => true
    case Scanned(referenced, at) =>
      && at <= s.now <= at + t.gap
      && forall b :: b in s.rows && b in s.files && b !in referenced ==> s.files[b] >= at - t.upload
    case Walking(referenced, cutoff, todo, failed) =>
      && cutoff <= s.now
      && (forall b :: b in s.uploads ==> s.uploads[b].started >= cutoff)
      && (forall b :: b in s.rows && b in s.files && b !in referenced ==> s.files[b] >= cutoff)
      && (!failed ==> forall f :: f in s.files && f !in todo ==> !Reapable(f, s.files[f], referenced, cutoff))
  }

  ghost predicate Inv(t: Timing, s: State) {
    && Safe(s)
    && s.rows + s.doomed <= s.used && s.rows !! s.doomed && (forall b :: b in s.rows + s.doomed ==> IsBlob(b))
    && (forall b {:trigger UploadOk(t, s, b)} :: b in s.uploads ==> UploadOk(t, s, b))
    && TempsApart(s) && SweepOk(t, s)
  }

  lemma NewTempApart(t: Timing, s: State, b: string, temp: string)
    requires Inv(t, s) && Enabled(t, s, Begin(b, temp))
    ensures TempsApart(Apply(t, s, Begin(b, temp)))
  {
    forall c | InPhase(s, c, false) ensures s.uploads[c].phase.temp != temp {
      assert UploadOk(t, s, c);
    }
    assert InPhase(s, b, false) ==> UploadOk(t, s, b);
  }

  lemma BeginKeeps(t: Timing, s: State, b: string, temp: string)
    requires Roomy(t) && Inv(t, s) && Enabled(t, s, Begin(b, temp))
    ensures Inv(t, Apply(t, s, Begin(b, temp)))
  {
    var s' := Apply(t, s, Begin(b, temp));
    forall c | c in s'.uploads ensures UploadOk(t, s', c) {
      if c != b { assert UploadOk(t, s, c); }
    }
    NewTempApart(t, s, b, temp);
  }

  lemma AppendKeeps(t: Timing, s: State, b: string)
    requires Roomy(t) && Inv(t, s) && Enabled(t, s, Append(b))
    ensures Inv(t, Apply(t, s, Append(b)))
  {
    var s' := Apply(t, s, Append(b));
    assert UploadOk(t, s, b);
    forall c | c in s'.uploads ensures UploadOk(t, s', c) {
      assert UploadOk(t, s, c);
    }
  }

  lemma FewerTemps(s: State, s': State)
    requires TempsApart(s)
    requires forall b :: InPhase(s', b, false) ==> InPhase(s, b, false) && s'.uploads[b].phase == s.uploads[b].phase
    ensures TempsApart(s')
  {
    forall b, c | InPhase(s', b, false) && InPhase(s', c, false)
      ensures s'.uploads[b].phase.temp == s'.uploads[c].phase.temp ==> b == c
    {
      assert InPhase(s, b, false) && InPhase(s, c, false);
    }
  }

  lemma PlacedUploads(t: Timing, s: State, b: string, s': State)
    requires Inv(t, s) && Enabled(t, s, Place(b)) && s' == Apply(t, s, Place(b))
    ensures forall c :: c in s'.uploads ==> UploadOk(t, s', c)
  {
    assert UploadOk(t, s, b);
    forall c | c in s'.uploads ensures UploadOk(t, s', c) {
      assert UploadOk(t, s, c);
      assert InPhase(s, b, false) && c in s.uploads;
    }
  }

  lemma PlacedSweep(t: Timing, s: State, b: string, s': State)
    requires Inv(t, s) && Enabled(t, s, Place(b)) && s' == Apply(t, s, Place(b))
    ensures SweepOk(t, s') && Safe(s')
  {
    assert UploadOk(t, s, b);
  }

  lemma PlaceKeeps(t: Timing, s: State, b: string)
    requires Roomy(t) && Inv(t, s) && Enabled(t, s, Place(b))
    ensures Inv(t, Apply(t, s, Place(b)))
  {
    var s' := Apply(t, s, Place(b));
    assert UploadOk(t, s, b);
    PlacedUploads(t, s, b, s');
    FewerTemps(s, s');
    PlacedSweep(t, s, b, s');
  }

  lemma AbortKeeps(t: Timing, s: State, b: string, cleaned: bool)
    requires Roomy(t) && Inv(t, s) && Enabled(t, s, Abort(b, cleaned))
    ensures Inv(t, Apply(t, s, Abort(b, cleaned)))
  {
    var s' := Apply(t, s, Abort(b, cleaned));
    assert UploadOk(t, s, b);
    forall c | c in s'.uploads ensures UploadOk(t, s', c) {
      assert UploadOk(t, s, c);
    }
  }

  lemma CommitKeeps(t: Timing, s: State, b: string)
    requires Roomy(t) && Inv(t, s) && Enabled(t, s, Commit(b))
    ensures Inv(t, Apply(t, s, Commit(b)))
  {
    var s' := Apply(t, s, Commit(b));
    assert UploadOk(t, s, b);
    forall c | c in s'.uploads ensures UploadOk(t, s', c) {
      assert UploadOk(t, s, c);
    }
  }

  lemma RejectKeeps(t: Timing, s: State, b: string)
    requires Roomy(t) && Inv(t, s) && Enabled(t, s, Reject(b))
    ensures Inv(t, Apply(t, s, Reject(b)))
  {
    var s' := Apply(t, s, Reject(b));
    assert UploadOk(t, s, b);
    forall c | c in s'.uploads ensures UploadOk(t, s', c) {
      assert UploadOk(t, s, c);
    }
  }

  lemma TickKeeps(t: Timing, s: State, d: nat)
    requires Roomy(t) && Inv(t, s) && Enabled(t, s, Tick(d))
    ensures Inv(t, Apply(t, s, Tick(d)))
  {
    var s' := Apply(t, s, Tick(d));
    forall c | c in s'.uploads ensures UploadOk(t, s', c) {
      assert UploadOk(t, s, c);
    }
  }

  lemma PurgeKeeps(t: Timing, s: State, gone: set<string>)
    requires Roomy(t) && Inv(t, s) && Enabled(t, s, Purge(gone))
    ensures Inv(t, Apply(t, s, Purge(gone)))
  {
    var s' := Apply(t, s, Purge(gone));
    forall c | c in s'.uploads ensures UploadOk(t, s', c) {
      assert UploadOk(t, s, c);
    }
  }

  lemma DeleteKeeps(t: Timing, s: State, b: string, ok: bool)
    requires Roomy(t) && Inv(t, s) && Enabled(t, s, Delete(b, ok))
    ensures Inv(t, Apply(t, s, Delete(b, ok)))
  {
    var s' := Apply(t, s, Delete(b, ok));
    forall c | c in s'.uploads ensures UploadOk(t, s', c) {
      assert UploadOk(t, s, c);
    }
  }

  lemma CrashKeeps(t: Timing, s: State)
    requires Roomy(t) && Inv(t, s) && Enabled(t, s, Crash)
    ensures Inv(t, Apply(t, s, Crash))
  {
  }

  lemma ScanKeeps(t: Timing, s: State)
    requires Roomy(t) && Inv(t, s) && Enabled(t, s, Scan)
    ensures Inv(t, Apply(t, s, Scan))
  {
    var s' := Apply(t, s, Scan);
    forall c | c in s'.uploads ensures UploadOk(t, s', c) {
      assert UploadOk(t, s, c);
    }
  }

  lemma CutoffKeeps(t: Timing, s: State)
    requires Roomy(t) && Inv(t, s) && Enabled(t, s, Cutoff)
    ensures Inv(t, Apply(t, s, Cutoff))
  {
    var s' := Apply(t, s, Cutoff);
    forall c | c in s'.uploads ensures UploadOk(t, s', c) {
      assert UploadOk(t, s, c);
    }
  }

  lemma FinishKeeps(t: Timing, s: State)
    requires Roomy(t) && Inv(t, s) && Enabled(t, s, Finish)
    ensures Inv(t, Apply(t, s, Finish))
  {
    var s' := Apply(t, s, Finish);
    forall c | c in s'.uploads ensures UploadOk(t, s', c) {
      assert UploadOk(t, s, c);
    }
  }

  /** What the sweep removes belongs to no row and to no upload under way. */
  lemma SweepSpares(t: Timing, s: State, f: string)
    requires Inv(t, s) && s.sweep.Walking? && f in s.files
    requires Reapable(f, s.files[f], s.sweep.referenced, s.sweep.cutoff)
    ensures f !in s.rows
    ensures forall b :: b in s.uploads ==> f != (if s.uploads[b].phase.Placed? then b else s.uploads[b].phase.temp)
  {
    forall b | b in s.uploads ensures f != (if s.uploads[b].phase.Placed? then b else s.uploads[b].phase.temp) {
      assert UploadOk(t, s, b);
    }
  }

  lemma ReapKeeps(t: Timing, s: State, f: string, s': State)
    requires Inv(t, s) && s.sweep.Walking? && f in s.files
    requires Reapable(f, s.files[f], s.sweep.referenced, s.sweep.cutoff)
    requires s' == s.(files := s.files - {f}, sweep := s.sweep.(todo := s.sweep.todo - {f}))
    ensures Inv(t, s')
  {
    SweepSpares(t, s, f);
    forall c | c in s'.uploads ensures UploadOk(t, s', c) {
      assert UploadOk(t, s, c);
    }
  }

  lemma PassSweep(t: Timing, s: State, f: string, s': State, failed: bool)
    requires SweepOk(t, s) && s.sweep.Walking? && (s.sweep.failed ==> failed)
    requires !failed && f in s.files ==> !Reapable(f, s.files[f], s.sweep.referenced, s.sweep.cutoff)
    requires s' == s.(sweep := s.sweep.(todo := s.sweep.todo - {f}, failed := failed))
    ensures SweepOk(t, s')
  {
  }

  lemma PassKeeps(t: Timing, s: State, f: string, s': State, failed: bool)
    requires Inv(t, s) && s.sweep.Walking? && (s.sweep.failed ==> failed)
    requires !failed && f in s.files ==> !Reapable(f, s.files[f], s.sweep.referenced, s.sweep.cutoff)
    requires s' == s.(sweep := s.sweep.(todo := s.sweep.todo - {f}, failed := failed))
    ensures Inv(t, s')
  {
    forall c | c in s'.uploads ensures UploadOk(t, s', c) {
      assert UploadOk(t, s, c);
    }
    FewerTemps(s, s');
    PassSweep(t, s, f, s', failed);
  }

  lemma VisitKeeps(t: Timing, s: State, f: string, ok: bool)
    requires Roomy(t) && Inv(t, s) && Enabled(t, s, Visit(f, ok))
    ensures Inv(t, Apply(t, s, Visit(f, ok)))
  {
    var s' := Apply(t, s, Visit(f, ok));
    if f in s.files && Reapable(f, s.files[f], s.sweep.referenced, s.sweep.cutoff) && ok {
      ReapKeeps(t, s, f, s');
    } else {
      PassKeeps(t, s, f, s', s'.sweep.failed);
    }
  }

  lemma StepKeeps(t: Timing, s: State, step: Step)
    requires Roomy(t) && Inv(t, s) && Enabled(t, s, step)
    ensures Inv(t, Apply(t, s, step))
  {
    match step
    case Begin(b, temp) => BeginKeeps(t, s, b, temp);
    case Append(b) => AppendKeeps(t, s, b);
    case Place(b) => PlaceKeeps(t, s, b);
    case Abort(b, cleaned) => AbortKeeps(t, s, b, cleaned);
    case Commit(b) => CommitKeeps(t, s, b);
    case Reject(b) => RejectKeeps(t, s, b);
    case Tick(d) => TickKeeps(t, s, d);
    case Purge(gone) => PurgeKeeps(t, s, gone);
    case Delete(b, ok) => DeleteKeeps(t, s, b, ok);
    case Crash => CrashKeeps(t, s);
    case Scan => ScanKeeps(t, s);
    case Cutoff => CutoffKeeps(t, s);
    case Visit(f, ok) => VisitKeeps(t, s, f, ok);
    case Finish => FinishKeeps(t, s);
  }

  // --- The theorems ---

  lemma {:induction false} RunKeeps(t: Timing, states: seq<State>, steps: seq<Step>, i: nat)
    requires Roomy(t) && Run(t, states, steps) && i < |states|
    ensures Inv(t, states[i])
  {
    if i > 0 {
      RunKeeps(t, states, steps, i - 1);
      StepKeeps(t, states[i - 1], steps[i - 1]);
    }
  }

  /** A sweep that met no error leaves only files that are referenced or at least as recent as its cutoff. */
  lemma SweepCleans(t: Timing, states: seq<State>, steps: seq<Step>, i: nat)
    requires Roomy(t) && Run(t, states, steps) && i < |steps| && steps[i] == Finish && !states[i].sweep.failed
    ensures forall f :: f in states[i].files && (IsBlob(f) || IsTempLeftover(f)) ==>
      (IsBlob(f) && f in states[i].sweep.referenced) || states[i].files[f] >= states[i].sweep.cutoff
  {
    RunKeeps(t, states, steps, i);
  }

  lemma RunThen(t: Timing, states: seq<State>, steps: seq<Step>, step: Step)
    requires Run(t, states, steps) && Enabled(t, states[|states| - 1], step)
    ensures Run(t, states + [Apply(t, states[|states| - 1], step)], steps + [step])
  {
  }

  /** An upload that takes all the time it has, its row committed just after the scan. */
  lemma SlowUpload(t: Timing, b: string, temp: string) returns (states: seq<State>, steps: seq<Step>)
    requires IsBlob(b) && !IsTempLeftover(b) && IsTempLeftover(temp) && !IsBlob(temp)
    ensures Run(t, states, steps)
    ensures states[|states| - 1] == State(t.upload, {b}, map[b := 0], map[], {}, {b}, Scanned({}, t.upload))
  {
    var s0 := State(0, {}, map[], map[], {}, {}, Idle);
    var s1 := s0.(used := {b}, files := map[temp := 0], uploads := map[b := Upload(0, Writing(temp))]);
    var s2 := s1.(files := map[b := 0], uploads := map[b := Upload(0, Placed)]);
    var s3 := s2.(now := t.upload);
    var s4 := s3.(sweep := Scanned({}, t.upload));
    var s5 := s4.(rows := {b}, uploads := map[]);
    steps := [Begin(b, temp), Place(b), Tick(t.upload), Scan, Commit(b)];
    states := [s0, s1, s2, s3, s4, s5];
    assert Apply(t, s0, steps[0]) == s1;
    assert Apply(t, s1, steps[1]) == s2;
    assert Apply(t, s4, steps[4]) == s5;
  }

  /** An upload slow enough, and a janitor slow enough, lose a blob between them. */
  lemma TooSlow(t: Timing, b: string, temp: string) returns (states: seq<State>, steps: seq<Step>)
    requires !Roomy(t) && IsBlob(b) && !IsTempLeftover(b) && IsTempLeftover(temp) && !IsBlob(temp)
    ensures Run(t, states, steps) && !Safe(states[|states| - 1])
  {
    states, steps := SlowUpload(t, b, temp);
    var s5 := states[|states| - 1];
    var s6 := s5.(now := t.upload + t.gap);
    var s7 := s6.(sweep := Walking({}, t.upload + t.gap - t.grace, {b}, false));
    assert s6.files.Keys == {b};
    RunThen(t, states, steps, Tick(t.gap));
    states, steps := states + [s6], steps + [Tick(t.gap)];
    RunThen(t, states, steps, Cutoff);
    states, steps := states + [s7], steps + [Cutoff];
    RunThen(t, states, steps, Visit(b, true));
    states, steps := states + [Apply(t, s7, Visit(b, true))], steps + [Visit(b, true)];
  }

  /** Every blob a row points at is on disk in every run, if and only if the grace period is long enough. */
  lemma SafeExactlyWhenRoomy(t: Timing)
    ensures (forall states, steps, i :: Run(t, states, steps) && 0 <= i < |states| ==> Safe(states[i])) <==> Roomy(t)
  {
    if Roomy(t) {
      forall states, steps, i | Run(t, states, steps) && 0 <= i < |states| ensures Safe(states[i]) {
        RunKeeps(t, states, steps, i);
      }
    } else {
      var b, temp := RelPath("u", "1"), TempPath("u", "1", "0");
      BlobRecognized("u", "1");
      TempRecognized("u", "1", "0");
      var states, steps := TooSlow(t, b, temp);
    }
  }
}
