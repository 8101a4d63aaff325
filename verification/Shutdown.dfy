// Stopping a recorded local runtime in a world where processes die and process
// ids are reused (scripts/local_runtime.py, lines 1640-1904).
//
// A call is a trace of observations and actions. The world answers each
// observation from the whole trace before it, so between any two events
// processes may appear, vanish or react to signals in any way.
module Shutdown {
  import opened Options
  import opened Text

  datatype Event =
    | Command(pid: int, command: Option<string>)   // ps -o command=
    | Cwd(pid: int, cwd: Option<string>)
    | Start(pid: int, signature: Option<string>)   // ps -o lstart=
    | Group(pid: int, leader: Option<int>)         // getpgid, None when it fails
    | Port(port: nat, busy: bool)                  // 0 the backend's, 1 the web server's
    | Clock(now: int)                              // monotonic, in milliseconds
    | Record(read: RecordFile)
    | Exists(there: bool)                          // whether the record file is there
    | Sleep
    | SignalProcess(pid: int, delivered: bool)     // SIGTERM to one process
    | SignalGroup(pid: int, delivered: bool)       // SIGTERM to a process group
    | Unlink

  // `born` is how long the trace was when the process started.
  datatype Proc = Proc(command: Option<string>, cwd: Option<string>, start: Option<string>, leader: Option<int>, born: nat)
  datatype Moment = Moment(procs: map<int, Proc>, busy: set<nat>, clock: int, record: RecordFile, deliverable: set<int>)

  type World = seq<Event> -> Moment

  datatype RecordFile = Absent | Unreadable | Readable(state: State)
  datatype State = State(
    repoRoot: string, supervisor: int, supervisorSignature: string,
    backend: int, backendSignature: Option<string>, frontend: int, frontendSignature: Option<string>)

  datatype Child = Backend | Frontend

  // What a process must look like to be the recorded one.
  datatype Identity = Identity(pid: int, markers: seq<string>, cwd: string, signature: string)

  // One call: its world, the repository root, the record it acts on and the
  // length of the trace at its beginning.
  datatype Call = Call(w: World, root: string, state: State, begin: nat)

  // ---- Answers ----

  function CommandOf(m: Moment, pid: int): Option<string> { if pid in m.procs then m.procs[pid].command else None }
  function CwdOf(m: Moment, pid: int): Option<string> { if pid in m.procs then m.procs[pid].cwd else None }
  function StartOf(m: Moment, pid: int): Option<string> { if pid in m.procs then m.procs[pid].start else None }
  function LeaderOf(m: Moment, pid: int): Option<int> { if pid in m.procs then m.procs[pid].leader else None }

  predicate Answers(m: Moment, e: Event) {
    match e
    case Command(pid, command) => command == CommandOf(m, pid)
    case Cwd(pid, cwd) => cwd == CwdOf(m, pid)
    case Start(pid, signature) => signature == StartOf(m, pid)
    case Group(pid, leader) => leader == LeaderOf(m, pid)
    case Port(n, busy) => busy == (n in m.busy)
    case Clock(now) => now == m.clock
    case Record(read) => read == m.record
    case Exists(there) => there == !m.record.Absent?
    case SignalProcess(pid, delivered) => delivered == (pid in m.deliverable)
    case SignalGroup(pid, delivered) => delivered == (pid in m.deliverable)
    case Sleep => true
    case Unlink => true
  }

  // ---- What an action needs ----

  function Pid(s: State, c: Child): int { if c.Backend? then s.backend else s.frontend }

  function Recorded(o: Option<string>): string { if o.Some? then o.value else "" }

  function ChildIdentity(root: string, s: State, c: Child): Identity {
    match c
    case Backend => Identity(s.backend, ["uvicorn", "app.main:app"], root, Recorded(s.backendSignature))
    case Frontend => Identity(s.frontend, ["npm", "run", "dev"], root + "/web", Recorded(s.frontendSignature))
  }

  function SupervisorIdentity(root: string, s: State): Identity {
    Identity(s.supervisor, ["scripts/start_local.py"], root, s.supervisorSignature)
  }

  predicate HasMarkers(command: string, markers: seq<string>) {
    forall i :: 0 <= i < |markers| ==> Contains(command, markers[i])
  }

  // Three observations from a on that identify the process.
  predicate CheckedAt(tr: seq<Event>, a: nat, id: Identity) {
    && a + 3 <= |tr|
    && tr[a].Command? && tr[a].pid == id.pid && tr[a].command.Some? && HasMarkers(tr[a].command.value, id.markers)
    && tr[a + 1] == Cwd(id.pid, Some(id.cwd))
    && tr[a + 2] == Start(id.pid, Some(id.signature))
  }

  // In this call the process was identified.
  ghost predicate Owned(tr: seq<Event>, begin: nat, id: Identity) { exists a: nat :: begin <= a && CheckedAt(tr, a, id) }

  // Observations that both children are gone and both ports are free.
  function QuietView(s: State): seq<Event> {
    (if s.backend > 0 then [Command(s.backend, None)] else []) + (if s.frontend > 0 then [Command(s.frontend, None)] else [])
    + [Port(0, false), Port(1, false)]
  }

  predicate EndsWith(tr: seq<Event>, tail: seq<Event>) { |tail| <= |tr| && tr[|tr| - |tail|..] == tail }

  // A child with a recorded signature that was identified.
  ghost predicate Trusted(c: Call, tr: seq<Event>, child: Child) {
    Verifiable(c, child) && Owned(tr, c.begin, ChildIdentity(c.root, c.state, child))
  }

  predicate Verifiable(c: Call, child: Child) { Pid(c.state, child) > 0 && ChildIdentity(c.root, c.state, child).signature != "" }

  // An observation that something the record names still runs.
  predicate StillRuns(s: State, e: Event) {
    match e
    case Command(pid, command) => (pid == s.supervisor || (pid > 0 && pid in {s.backend, s.frontend})) && command.Some?
    case Port(_, busy) => busy
    case _ => false
  }

  // One of the last two events says so.
  ghost predicate Restless(c: Call, tr: seq<Event>) {
    exists k :: c.begin <= k < |tr| <= k + 2 && StillRuns(c.state, tr[k])
  }

  // When an event may follow a trace. Only actions and waiting need a justification.
  ghost predicate Justified(c: Call, tr: seq<Event>, e: Event) {
    match e
    case SignalProcess(pid, _) =>
      && pid == c.state.supervisor && c.state.repoRoot == c.root
      && Owned(tr, c.begin, SupervisorIdentity(c.root, c.state))
    case SignalGroup(pid, _) =>
      EndsWith(tr, [Group(pid, Some(pid))]) && exists child :: Pid(c.state, child) == pid && Trusted(c, tr, child)
    case Unlink => EndsWith(tr, QuietView(c.state)) && |tr| - |QuietView(c.state)| >= c.begin
    case Sleep => Restless(c, tr)
    case _ => true
  }

  // Every event of the call was answered by the world and justified.
  ghost predicate Sound(c: Call, tr: seq<Event>) {
    c.begin <= |tr| && forall k :: c.begin <= k < |tr| ==> Answers(c.w(tr[..k]), tr[k]) && Justified(c, tr[..k], tr[k])
  }

  lemma Add(c: Call, tr: seq<Event>, e: Event)
    requires Sound(c, tr) && Answers(c.w(tr), e) && Justified(c, tr, e)
    ensures Sound(c, tr + [e])
  {
    hide Answers, Justified;
    var next := tr + [e];
    forall k | c.begin <= k < |next| ensures Answers(c.w(next[..k]), next[k]) && Justified(c, next[..k], next[k]) {
      if k < |tr| { assert next[..k] == tr[..k]; } else { assert next[..k] == tr; }
    }
  }

  lemma Observe(c: Call, tr: seq<Event>, e: Event)
    requires Sound(c, tr) && Answers(c.w(tr), e) && Observation(e) && !e.Sleep?
    ensures Sound(c, tr + [e])
  {
    assert Justified(c, tr, e);
    Add(c, tr, e);
  }

  lemma OwnedLater(tr: seq<Event>, next: seq<Event>, begin: nat, id: Identity)
    requires tr <= next && Owned(tr, begin, id)
    ensures Owned(next, begin, id)
  {
    var a: nat :| begin <= a && CheckedAt(tr, a, id);
    assert CheckedAt(next, a, id);
  }

  lemma TrustedLater(c: Call, tr: seq<Event>, next: seq<Event>, child: Child)
    requires tr <= next && Trusted(c, tr, child)
    ensures Trusted(c, next, child)
  {
    hide Owned;
    OwnedLater(tr, next, c.begin, ChildIdentity(c.root, c.state, child));
  }

  // ---- Observing ----

  predicate Observation(e: Event) { !e.SignalProcess? && !e.SignalGroup? && !e.Unlink? }

  predicate OnlyObserves(tr: seq<Event>, next: seq<Event>) {
    tr <= next && forall k :: |tr| <= k < |next| ==> Observation(next[k])
  }

  // How often a call slept.
  function Sleeps(tr: seq<Event>): nat {
    if tr == [] then 0 else Sleeps(tr[..|tr| - 1]) + if tr[|tr| - 1].Sleep? then 1 else 0
  }

  lemma SleepsAppend(tr: seq<Event>, e: Event)
    ensures Sleeps(tr + [e]) == Sleeps(tr) + if e.Sleep? then 1 else 0
  {
    assert (tr + [e])[..|tr|] == tr;
  }

  // `process_command(pid) is not None`
  method Lives(c: Call, tr: seq<Event>, pid: int) returns (alive: bool, next: seq<Event>)
    requires Sound(c, tr)
    ensures Sound(c, next) && next == tr + [Command(pid, CommandOf(c.w(tr), pid))] && Sleeps(next) == Sleeps(tr)
    ensures alive <==> CommandOf(c.w(tr), pid).Some?
  {
    var e := Command(pid, CommandOf(c.w(tr), pid));
    Observe(c, tr, e);
    hide Sound, Sleeps;
    SleepsAppend(tr, e);
    return e.command.Some?, tr + [e];
  }

  // The observation of one recorded child; a pid that is not positive is not looked at.
  method ChildLives(c: Call, tr: seq<Event>, pid: int) returns (alive: bool, next: seq<Event>)
    requires Sound(c, tr)
    ensures Sound(c, next) && OnlyObserves(tr, next) && Sleeps(next) == Sleeps(tr)
    ensures !alive ==> next == tr + if pid > 0 then [Command(pid, None)] else []
    ensures alive ==> pid > 0 && SeenAlive(tr, next, pid)
    ensures !alive && pid > 0 ==> Gone(tr, next, pid)
    ensures |next| <= |tr| + 1
  {
    hide Sound;
    if pid <= 0 {
      assert tr + [] == tr;
      return false, tr;
    }
    hide Sleeps;
    alive, next := Lives(c, tr, pid);
    assert next[|tr|].Command?;
  }

  // The children that are alive, with the observations that say so.
  method RecordedChildrenAlive(c: Call, tr: seq<Event>) returns (alive: seq<Child>, next: seq<Event>)
    requires Sound(c, tr)
    ensures Sound(c, next) && OnlyObserves(tr, next) && Sleeps(next) == Sleeps(tr)
    ensures alive == [] || alive == [Backend] || alive == [Frontend] || alive == [Backend, Frontend]
    ensures alive == [] ==> next == tr + (if c.state.backend > 0 then [Command(c.state.backend, None)] else [])
                                       + (if c.state.frontend > 0 then [Command(c.state.frontend, None)] else [])
    ensures forall child :: child in alive ==> Pid(c.state, child) > 0
    ensures forall child: Child :: child in alive || Pid(c.state, child) <= 0 || Gone(tr, next, Pid(c.state, child))
    ensures forall child :: child in alive ==> SeenAlive(tr, next, Pid(c.state, child))
    ensures |next| <= |tr| + 2 && (alive != [] ==> Restless(c, next))
  {
    hide Sound, Gone, SeenAlive, Sleeps, Restless;
    BeginBounds(c, tr);
    alive := [];
    var lives: bool;
    lives, next := ChildLives(c, tr, c.state.backend);
    if lives { alive := alive + [Backend]; }
    ghost var middle := next;
    ghost var first := lives;
    lives, next := ChildLives(c, next, c.state.frontend);
    if lives { alive := alive + [Frontend]; }
    if first { SeenLater(tr, tr, middle, next, c.state.backend); }
    if !first && c.state.backend > 0 { GoneLater(tr, middle, next, c.state.backend); }
    if lives { SeenLater(tr, middle, next, next, c.state.frontend); }
    if !lives && c.state.frontend > 0 { GoneEarlier(tr, middle, next, c.state.frontend); }
    if first { SeenRestless(c, tr, middle, next, Backend); }
    if lives { SeenRestless(c, tr, next, next, Frontend); }
  }

  lemma SeenRestless(c: Call, tr: seq<Event>, middle: seq<Event>, next: seq<Event>, child: Child)
    requires c.begin <= |tr| && tr <= middle <= next && |next| <= |tr| + 2
    requires Pid(c.state, child) > 0 && SeenAlive(tr, middle, Pid(c.state, child))
    ensures Restless(c, next)
  {
    var k :| |tr| <= k < |middle| && middle[k].Command? && middle[k].pid == Pid(c.state, child) && middle[k].command.Some?;
    assert next[k] == middle[k] && StillRuns(c.state, next[k]);
  }

  lemma SeenLater(start: seq<Event>, tr: seq<Event>, middle: seq<Event>, next: seq<Event>, pid: int)
    requires start <= tr && middle <= next && SeenAlive(tr, middle, pid)
    ensures SeenAlive(start, next, pid)
  {
    var k :| |tr| <= k < |middle| && middle[k].Command? && middle[k].pid == pid && middle[k].command.Some?;
    assert next[k] == middle[k];
  }

  // Between two traces the process was seen not to exist.
  ghost predicate Gone(tr: seq<Event>, next: seq<Event>, pid: int) {
    exists k :: |tr| <= k < |next| && next[k] == Command(pid, None)
  }

  // Between two traces the process was seen to exist.
  ghost predicate SeenAlive(tr: seq<Event>, next: seq<Event>, pid: int) {
    exists k :: |tr| <= k < |next| && next[k].Command? && next[k].pid == pid && next[k].command.Some?
  }

  lemma GoneLater(tr: seq<Event>, middle: seq<Event>, next: seq<Event>, pid: int)
    requires middle <= next && Gone(tr, middle, pid)
    ensures Gone(tr, next, pid)
  {
    var k :| |tr| <= k < |middle| && middle[k] == Command(pid, None);
    assert next[k] == Command(pid, None);
  }

  // An observation that this is not the recorded process.
  predicate Contradicts(e: Event, id: Identity) {
    match e
    case Command(pid, command) => pid == id.pid && (command.None? || !HasMarkers(command.value, id.markers))
    case Cwd(pid, cwd) => pid == id.pid && cwd != Some(id.cwd)
    case Start(pid, signature) => pid == id.pid && signature != Some(id.signature)
    case _ => false
  }

  // The observations of `runtime_child_matches` and `runtime_process_matches`.
  method Matches(c: Call, tr: seq<Event>, id: Identity) returns (ok: bool, next: seq<Event>)
    requires Sound(c, tr)
    ensures Sound(c, next) && OnlyObserves(tr, next) && Sleeps(next) == Sleeps(tr)
    ensures ok ==> Owned(next, c.begin, id) && next == tr + next[|tr|..] && |next| == |tr| + 3 && CheckedAt(next, |tr|, id)
    ensures !ok ==> tr < next && Contradicts(next[|next| - 1], id)
  {
    hide Sound, Sleeps;
    BeginBounds(c, tr);
    var e := Command(id.pid, CommandOf(c.w(tr), id.pid));
    Observe(c, tr, e);
    SleepsAppend(tr, e);
    next := tr + [e];
    if e.command.None? || !HasMarkers(e.command.value, id.markers) { return false, next; }
    var d := Cwd(id.pid, CwdOf(c.w(next), id.pid));
    Observe(c, next, d);
    SleepsAppend(next, d);
    next := next + [d];
    if d.cwd != Some(id.cwd) { return false, next; }
    var f := Start(id.pid, StartOf(c.w(next), id.pid));
    Observe(c, next, f);
    SleepsAppend(next, f);
    next := next + [f];
    ok := f.signature == Some(id.signature);
    if ok { assert CheckedAt(next, |tr|, id); }
  }

  lemma BeginBounds(c: Call, tr: seq<Event>)
    requires Sound(c, tr)
    ensures c.begin <= |tr|
  {
  }

  method RuntimeChildMatches(c: Call, tr: seq<Event>, child: Child) returns (ok: bool, next: seq<Event>)
    requires Sound(c, tr)
    ensures Sound(c, next) && OnlyObserves(tr, next) && Sleeps(next) == Sleeps(tr)
    ensures ok ==> Trusted(c, next, child)
    ensures !ok ==> !Verifiable(c, child)
                    || (tr < next && Contradicts(next[|next| - 1], ChildIdentity(c.root, c.state, child)))
  {
    hide Sound, Sleeps;
    if !Verifiable(c, child) { return false, tr; }
    ok, next := Matches(c, tr, ChildIdentity(c.root, c.state, child));
  }

  method PortsBusy(c: Call, tr: seq<Event>) returns (busy: bool, next: seq<Event>)
    requires Sound(c, tr)
    ensures Sound(c, next) && OnlyObserves(tr, next) && Sleeps(next) == Sleeps(tr)
    ensures !busy ==> next == tr + [Port(0, false), Port(1, false)]
    ensures busy ==> EndsWith(next, [Port(0, true)]) || EndsWith(next, [Port(1, true)])
    ensures busy ==> Restless(c, next)
  {
    hide Sound, Sleeps;
    BeginBounds(c, tr);
    var e := Port(0, 0 in c.w(tr).busy);
    Observe(c, tr, e);
    SleepsAppend(tr, e);
    next := tr + [e];
    if e.busy {
      assert StillRuns(c.state, next[|tr|]);
      return true, next;
    }
    var f := Port(1, 1 in c.w(next).busy);
    Observe(c, next, f);
    SleepsAppend(next, f);
    next := next + [f];
    busy := f.busy;
    if busy { assert StillRuns(c.state, next[|tr| + 1]); }
  }

  lemma QuietViewAfter(s: State, tr: seq<Event>)
    ensures tr + (if s.backend > 0 then [Command(s.backend, None)] else []) + (if s.frontend > 0 then [Command(s.frontend, None)] else [])
            + [Port(0, false), Port(1, false)] == tr + QuietView(s)
  {
  }

  method RuntimeIsQuiescent(c: Call, tr: seq<Event>) returns (quiet: bool, next: seq<Event>)
    requires Sound(c, tr)
    ensures Sound(c, next) && OnlyObserves(tr, next) && Sleeps(next) == Sleeps(tr)
    ensures quiet ==> next == tr + QuietView(c.state)
    ensures !quiet ==> Restless(c, next)
  {
    hide Sound, Sleeps, QuietView, Gone, SeenAlive, EndsWith, Restless;
    var alive;
    alive, next := RecordedChildrenAlive(c, tr);
    if alive != [] { return false, next; }
    var busy;
    busy, next := PortsBusy(c, next);
    quiet := !busy;
    if quiet { QuietViewAfter(c.state, tr); }
  }

  // ---- Acting ----

  // The clock never goes back, and sleeping takes at least its 0.2 seconds.
  ghost predicate Ticking(w: World) {
    forall tr, e :: w(tr + [e]).clock >= w(tr).clock + if e.Sleep? then 200 else 0
  }

  lemma {:induction false} ClockGrows(w: World, tr: seq<Event>, next: seq<Event>)
    requires Ticking(w) && tr <= next
    ensures w(next).clock >= w(tr).clock
    decreases |next|
  {
    if |tr| < |next| {
      var last := |next| - 1;
      ClockGrows(w, tr, next[..last]);
      assert next == next[..last] + [next[last]];
    } else {
      assert tr == next;
    }
  }

  predicate NoUnlink(tr: seq<Event>, next: seq<Event>) {
    tr <= next && forall k :: |tr| <= k < |next| ==> !next[k].Unlink?
  }

  // The child was signaled, or was seen not to exist.
  ghost predicate Handled(tr: seq<Event>, next: seq<Event>, pid: int) {
    Gone(tr, next, pid) || exists k :: |tr| <= k < |next| && next[k] == SignalGroup(pid, true)
  }

  lemma HandledLater(tr: seq<Event>, first: seq<Event>, middle: seq<Event>, next: seq<Event>, pid: int)
    requires tr <= first <= middle <= next && Handled(first, middle, pid)
    ensures Handled(tr, next, pid)
  {
    if Gone(first, middle, pid) {
      var k :| |first| <= k < |middle| && middle[k] == Command(pid, None);
      assert next[k] == Command(pid, None);
    } else {
      var k :| |first| <= k < |middle| && middle[k] == SignalGroup(pid, true);
      assert next[k] == SignalGroup(pid, true);
    }
  }

  // The last observation is that the child leads no group of its own, or that
  // it still exists just after its group was not found or could not be signaled.
  predicate Unsignaled(tr: seq<Event>, pid: int) {
    tr != [] &&
    match tr[|tr| - 1]
    case Group(p, leader) => p == pid && leader.Some? && leader != Some(pid)
    case Command(p, command) => p == pid && command.Some? && |tr| > 1 && tr[|tr| - 2] in {Group(pid, None), SignalGroup(pid, false)}
    case _ => false
  }

  lemma MaySignal(c: Call, tr: seq<Event>, child: Child, delivered: bool)
    requires Trusted(c, tr, child)
    ensures var pid := Pid(c.state, child);
            Justified(c, tr + [Group(pid, Some(pid))], SignalGroup(pid, delivered))
  {
    var pid := Pid(c.state, child);
    var next := tr + [Group(pid, Some(pid))];
    hide Trusted;
    TrustedLater(c, tr, next, child);
    assert next[|tr|..] == [Group(pid, Some(pid))];
  }

  method SignalVerifiedOrphanGroup(c: Call, tr: seq<Event>, child: Child) returns (ok: bool, next: seq<Event>)
    requires Sound(c, tr) && Trusted(c, tr, child)
    ensures Sound(c, next) && NoUnlink(tr, next) && Sleeps(next) == Sleeps(tr)
    ensures var pid := Pid(c.state, child);
            && |tr| < |next| && next[|tr|] == Group(pid, LeaderOf(c.w(tr), pid))
            && (LeaderOf(c.w(tr), pid) == Some(pid) ==>
                  |tr| + 1 < |next| && next[|tr| + 1] == SignalGroup(pid, pid in c.w(next[..|tr| + 1]).deliverable))
    ensures ok ==> Handled(tr, next, Pid(c.state, child))
    ensures !ok ==> Unsignaled(next, Pid(c.state, child))
                    && forall k :: |tr| <= k < |next| ==> next[k] != SignalGroup(Pid(c.state, child), true)
    ensures forall k :: |tr| <= k < |next| && next[k].SignalGroup? ==> next[k].pid == Pid(c.state, child)
  {
    hide Sound, Trusted, Sleeps;
    var pid := Pid(c.state, child);
    var e := Group(pid, LeaderOf(c.w(tr), pid));
    Observe(c, tr, e);
    SleepsAppend(tr, e);
    next := tr + [e];
    if e.leader.Some? {
      if e.leader != Some(pid) { return false, next; }
      var f := SignalGroup(pid, pid in c.w(next).deliverable);
      MaySignal(c, tr, child, f.delivered);
      hide Justified;
      Add(c, next, f);
      SleepsAppend(next, f);
      next := next + [f];
      assert next[..|tr| + 1] == tr + [e];
      if f.delivered {
        assert next[|tr| + 1] == SignalGroup(pid, true);
        return true, next;
      }
    }
    ghost var before := next;
    var alive;
    alive, next := Lives(c, next, pid);
    assert next[..|tr| + 1] == tr + [e];
    ok := !alive;
    if ok { assert next[|before|] == Command(pid, None) && Gone(tr, next, pid); }
  }

  datatype Ending =
    | Cleaned                // the record is gone: everything it names has stopped
    | NotRecorded            // there was no record, and nothing runs
    | InvalidRecord | PortsOccupied | SupervisorUnverified | SupervisorVanished
    | ChildUnverified | SignalFailed | TimedOut

  // A live child that could not be verified.
  predicate Refuted(c: Call, next: seq<Event>, child: Child) {
    && Pid(c.state, child) > 0
    && (!Verifiable(c, child) || (next != [] && Contradicts(next[|next| - 1], ChildIdentity(c.root, c.state, child))))
  }

  method VerifyChildren(c: Call, tr: seq<Event>, alive: seq<Child>) returns (ok: bool, next: seq<Event>)
    requires Sound(c, tr) && forall child :: child in alive ==> Pid(c.state, child) > 0
    ensures Sound(c, next) && OnlyObserves(tr, next) && Sleeps(next) == Sleeps(tr)
    ensures ok ==> forall child :: child in alive ==> Trusted(c, next, child)
    ensures !ok ==> exists child :: child in alive && Refuted(c, next, child)
  {
    hide Sound, Trusted, Sleeps;
    next := tr;
    for i := 0 to |alive|
      invariant Sound(c, next) && OnlyObserves(tr, next) && Sleeps(next) == Sleeps(tr)
      invariant forall k :: 0 <= k < i ==> Trusted(c, next, alive[k])
    {
      ghost var before := next;
      var matches;
      matches, next := RuntimeChildMatches(c, next, alive[i]);
      if !matches {
        assert alive[i] in alive && Refuted(c, next, alive[i]);
        return false, next;
      }
      forall k | 0 <= k < i ensures Trusted(c, next, alive[k]) {
        TrustedLater(c, before, next, alive[k]);
      }
    }
    ok := true;
  }

  // The group event after this trace is for one of the children, and all
  // children after it in the list were handled before.
  ghost predicate InTurn(c: Call, tr: seq<Event>, now: seq<Event>, e: Event, alive: seq<Child>) {
    e.SignalGroup? ==> exists i :: 0 <= i < |alive| && e.pid == Pid(c.state, alive[i]) && HandledFrom(c, tr, now, alive, i + 1)
  }

  ghost predicate HandledFrom(c: Call, tr: seq<Event>, now: seq<Event>, alive: seq<Child>, i: int) {
    forall j :: 0 <= i <= j < |alive| ==> Handled(tr, now, Pid(c.state, alive[j]))
  }

  lemma HandledFromLater(c: Call, tr: seq<Event>, now: seq<Event>, next: seq<Event>, alive: seq<Child>, i: int)
    requires tr <= now <= next && HandledFrom(c, tr, now, alive, i)
    ensures HandledFrom(c, tr, next, alive, i)
  {
    hide Handled;
    forall j | 0 <= i <= j < |alive| ensures Handled(tr, next, Pid(c.state, alive[j])) {
      HandledLater(tr, tr, now, next, Pid(c.state, alive[j]));
    }
  }

  // The last child first; the first failure ends it.
  method SignalChildren(c: Call, tr: seq<Event>, alive: seq<Child>) returns (ok: bool, next: seq<Event>)
    requires Sound(c, tr) && forall child :: child in alive ==> Trusted(c, tr, child)
    ensures Sound(c, next) && NoUnlink(tr, next) && Sleeps(next) == Sleeps(tr)
    ensures ok ==> forall child :: child in alive ==> Handled(tr, next, Pid(c.state, child))
    ensures !ok ==> exists i :: 0 <= i < |alive| && Unsignaled(next, Pid(c.state, alive[i])) && HandledFrom(c, tr, next, alive, i + 1)
    ensures forall k :: |tr| <= k < |next| ==> InTurn(c, tr, next[..k], next[k], alive)
  {
    hide Sound, Trusted, Handled, InTurn, HandledFrom, Unsignaled, Sleeps;
    next := tr;
    var i := |alive|;
    HandledFromEnd(c, tr, alive);
    while i > 0
      invariant 0 <= i <= |alive| && Sound(c, next) && NoUnlink(tr, next) && Sleeps(next) == Sleeps(tr)
      invariant HandledFrom(c, tr, next, alive, i)
      invariant forall k :: |tr| <= k < |next| ==> InTurn(c, tr, next[..k], next[k], alive)
    {
      i := i - 1;
      ghost var before := next;
      assert alive[i] in alive;
      TrustedLater(c, tr, next, alive[i]);
      var sent;
      sent, next := SignalVerifiedOrphanGroup(c, next, alive[i]);
      forall k | |tr| <= k < |next| ensures InTurn(c, tr, next[..k], next[k], alive) {
        if k < |before| { assert next[..k] == before[..k]; } else { Turn(c, tr, before, next[..k], next[k], alive, i); }
      }
      HandledFromLater(c, tr, before, next, alive, i + 1);
      if !sent { return false, next; }
      HandledLater(tr, before, next, next, Pid(c.state, alive[i]));
      HandledFromHere(c, tr, next, alive, i);
    }
    HandledFromAll(c, tr, next, alive);
    ok := true;
  }

  lemma Turn(c: Call, tr: seq<Event>, before: seq<Event>, now: seq<Event>, e: Event, alive: seq<Child>, i: nat)
    requires tr <= before <= now && i < |alive| && HandledFrom(c, tr, before, alive, i + 1)
    requires e.SignalGroup? ==> e.pid == Pid(c.state, alive[i])
    ensures InTurn(c, tr, now, e, alive)
  {
    HandledFromLater(c, tr, before, now, alive, i + 1);
  }

  lemma HandledFromEnd(c: Call, tr: seq<Event>, alive: seq<Child>)
    ensures HandledFrom(c, tr, tr, alive, |alive|)
  {
  }

  lemma HandledFromHere(c: Call, tr: seq<Event>, next: seq<Event>, alive: seq<Child>, i: nat)
    requires i < |alive| && HandledFrom(c, tr, next, alive, i + 1) && Handled(tr, next, Pid(c.state, alive[i]))
    ensures HandledFrom(c, tr, next, alive, i)
  {
    hide Handled;
  }

  lemma HandledFromAll(c: Call, tr: seq<Event>, next: seq<Event>, alive: seq<Child>)
    requires HandledFrom(c, tr, next, alive, 0)
    ensures forall child :: child in alive ==> Handled(tr, next, Pid(c.state, child))
  {
    hide Handled;
  }

  // Every recorded child passed its ownership check, or was seen not to exist.
  ghost predicate Vetted(c: Call, tr: seq<Event>, now: seq<Event>) {
    forall child: Child :: Pid(c.state, child) > 0 ==>
      Trusted(c, now, child) || Gone(tr, now, Pid(c.state, child))
  }

  // No group is signaled before every recorded child was vetted.
  ghost predicate VettedFirst(c: Call, tr: seq<Event>, next: seq<Event>) {
    forall k :: |tr| <= k < |next| && next[k].SignalGroup? ==> Vetted(c, tr, next[..k])
  }

  lemma VettedLater(c: Call, start: seq<Event>, tr: seq<Event>, now: seq<Event>, next: seq<Event>)
    requires start <= tr && now <= next && Vetted(c, tr, now)
    ensures Vetted(c, start, next)
  {
    hide Trusted, Gone;
    forall child: Child | Pid(c.state, child) > 0
      ensures Trusted(c, next, child) || Gone(start, next, Pid(c.state, child))
    {
      if Trusted(c, now, child) {
        TrustedLater(c, now, next, child);
      } else {
        GoneEarlier(start, tr, now, Pid(c.state, child));
        GoneLater(start, now, next, Pid(c.state, child));
      }
    }
  }

  lemma GoneEarlier(start: seq<Event>, tr: seq<Event>, now: seq<Event>, pid: int)
    requires start <= tr && Gone(tr, now, pid)
    ensures Gone(start, now, pid)
  {
  }

  lemma VettedFirstFrom(c: Call, tr: seq<Event>, vetted: seq<Event>, next: seq<Event>)
    requires OnlyObserves(tr, vetted) && vetted <= next && Vetted(c, tr, vetted)
    ensures VettedFirst(c, tr, next)
  {
    hide Vetted;
    forall k | |tr| <= k < |next| && next[k].SignalGroup? ensures Vetted(c, tr, next[..k]) {
      assert k >= |vetted|;
      VettedLater(c, tr, tr, vetted, next[..k]);
    }
  }

  lemma VettedFromStart(c: Call, tr: seq<Event>, next: seq<Event>)
    requires NoGroups(tr) && tr <= next && VettedFirst(c, tr, next)
    ensures VettedFirst(c, [], next)
  {
    hide Vetted;
    forall k | 0 <= k < |next| && next[k].SignalGroup? ensures Vetted(c, [], next[..k]) {
      assert k >= |tr|;
      VettedLater(c, [], tr, next[..k], next[..k]);
    }
  }

  lemma NoGroupsVetted(c: Call, tr: seq<Event>, next: seq<Event>)
    requires OnlyObserves(tr, next)
    ensures VettedFirst(c, tr, next)
  {
  }

  // Polls until the runtime is quiet, and then removes the record: at most once
  // more than the timeout has periods of 0.2 seconds.
  method AwaitQuiet(c: Call, tr: seq<Event>, timeout: int) returns (ending: Ending, next: seq<Event>)
    requires Sound(c, tr) && Ticking(c.w)
    ensures Sound(c, next) && tr <= next && ending in {Cleaned, TimedOut}
    ensures if ending.Cleaned? then EndsWith(next, QuietView(c.state) + [Unlink]) && NoUnlink(tr, next[..|next| - 1])
            else NoUnlink(tr, next)
    ensures ending.TimedOut? ==> next != [] && next[|next| - 1].Clock? && next[|next| - 1].now >= c.w(tr).clock + timeout
    ensures Sleeps(next) == Sleeps(tr) || 200 * (Sleeps(next) - Sleeps(tr) - 1) < timeout
  {
    hide Sound, Ticking, QuietView, Justified, Sleeps, Restless;
    var now;
    now, next := ReadClock(c, tr);
    ghost var start := now;
    var deadline := now + timeout;
    now, next := ReadClock(c, next);
    while now < deadline
      invariant Sound(c, next) && NoUnlink(tr, next)
      invariant next != [] && next[|next| - 1] == Clock(now) && now <= c.w(next).clock
      invariant Sleeps(next) >= Sleeps(tr) && 200 * (Sleeps(next) - Sleeps(tr)) <= now - start
      invariant Sleeps(next) == Sleeps(tr) || 200 * (Sleeps(next) - Sleeps(tr) - 1) < timeout
      decreases deadline - now
    {
      var quiet;
      ghost var before := next;
      quiet, next := RuntimeIsQuiescent(c, next);
      if quiet {
        SleepsAppend(next, Unlink);
        next := Remove(c, before, next);
        return Cleaned, next;
      }
      ClockGrows(c.w, before, next);
      now, next := Pause(c, next);
    }
    return TimedOut, next;
  }

  method Remove(c: Call, ghost before: seq<Event>, tr: seq<Event>) returns (next: seq<Event>)
    requires Sound(c, before) && Sound(c, tr) && tr == before + QuietView(c.state)
    ensures Sound(c, next) && next == tr + [Unlink] && EndsWith(next, QuietView(c.state) + [Unlink]) && next[..|next| - 1] == tr
  {
    hide Sound, QuietView;
    BeginBounds(c, before);
    assert tr[|tr| - |QuietView(c.state)|..] == QuietView(c.state);
    Add(c, tr, Unlink);
    next := tr + [Unlink];
    assert next[|next| - |QuietView(c.state) + [Unlink]|..] == QuietView(c.state) + [Unlink];
  }

  // Sleeps, and reads the clock again.
  method Pause(c: Call, tr: seq<Event>) returns (now: int, next: seq<Event>)
    requires Sound(c, tr) && Ticking(c.w) && Restless(c, tr)
    ensures Sound(c, next) && OnlyObserves(tr, next) && next != [] && next[|next| - 1] == Clock(now)
    ensures c.w(tr).clock + 200 <= now <= c.w(next).clock && Sleeps(next) == Sleeps(tr) + 1
  {
    hide Sound, Ticking, Restless;
    SleepTakes(c.w, tr);
    SleepsAppend(tr, Sleep);
    Add(c, tr, Sleep);
    next := tr + [Sleep];
    now, next := ReadClock(c, next);
  }

  // Why a stop ended as it did. `until` is the reading at which it gives up.
  ghost predicate Explained(c: Call, next: seq<Event>, until: int, ending: Ending) {
    match ending
    case Cleaned => EndsWith(next, QuietView(c.state) + [Unlink]) && AllHandled(c, [], next)
    case SupervisorUnverified =>
      c.state.repoRoot != c.root || (next != [] && Contradicts(next[|next| - 1], SupervisorIdentity(c.root, c.state)))
    case SupervisorVanished => EndsWith(next, [SignalProcess(c.state.supervisor, false)])
    case ChildUnverified => NoGroups(next) && exists child :: Refuted(c, next, child) && SeenAlive([], next, Pid(c.state, child))
    case SignalFailed => exists child :: Trusted(c, next, child) && Unsignaled(next, Pid(c.state, child))
    case TimedOut =>
      && next != [] && next[|next| - 1].Clock? && next[|next| - 1].now >= until
      && (NoGroups(next) || AllHandled(c, [], next))
    case _ => false
  }

  // The record is removed at the end of a successful stop, and else kept.
  predicate KeepsRecord(tr: seq<Event>, next: seq<Event>, ending: Ending) {
    if ending.Cleaned? then next != [] && NoUnlink(tr, next[..|next| - 1]) else NoUnlink(tr, next)
  }

  // A wait of at most this long: at most one period of 0.2 seconds beyond it.
  ghost predicate Waits(tr: seq<Event>, next: seq<Event>, timeout: int) {
    Sleeps(next) == Sleeps(tr) || 200 * (Sleeps(next) - Sleeps(tr) - 1) < timeout
  }

  // Nothing of the record was left to itself: each child was signaled, or was
  // seen not to exist.
  ghost predicate AllHandled(c: Call, tr: seq<Event>, next: seq<Event>) {
    forall child: Child :: Pid(c.state, child) > 0 ==> Handled(tr, next, Pid(c.state, child))
  }

  method ReconcileDeadSupervisor(c: Call, tr: seq<Event>, timeout: int) returns (ending: Ending, next: seq<Event>)
    requires Sound(c, tr) && Ticking(c.w) && NoGroups(tr)
    ensures Sound(c, next) && tr <= next && KeepsRecord(tr, next, ending)
    ensures ending in {Cleaned, ChildUnverified, SignalFailed, TimedOut}
    ensures Explained(c, next, c.w(tr).clock + timeout, ending)
    ensures VettedFirst(c, tr, next) && Waits(tr, next, timeout)
    ensures ending.ChildUnverified? ==> OnlyObserves(tr, next)
    ensures ending in {Cleaned, TimedOut} ==> AllHandled(c, tr, next)
  {
    hide Sound, Ticking, Trusted, Gone, Vetted, VettedFirst, Unsignaled, Refuted, InTurn, HandledFrom, Sleeps, SeenAlive, Restless;
    hide QuietView, Explained, AllHandled;
    var alive;
    alive, next := RecordedChildrenAlive(c, tr);
    ghost var listed := next;
    ghost var vetted := next;
    if alive != [] {
      var ok;
      ok, next := VerifyChildren(c, next, alive);
      if !ok {
        NoGroupsVetted(c, tr, next);
        ExplainUnverified(c, tr, listed, next, alive, c.w(tr).clock + timeout);
        return ChildUnverified, next;
      }
      vetted := next;
      AllVetted(c, tr, listed, vetted, alive);
      ok, next := SignalChildren(c, next, alive);
      VettedFirstFrom(c, tr, vetted, next);
      if !ok {
        ExplainFailed(c, vetted, next, alive, c.w(tr).clock + timeout);
        return SignalFailed, next;
      }
      forall child | child in alive ensures Handled(tr, next, Pid(c.state, child)) {
        HandledLater(tr, vetted, next, next, Pid(c.state, child));
      }
    } else {
      AllVetted(c, tr, listed, vetted, alive);
    }
    ghost var handled := next;
    HandledSoFar(c, tr, listed, handled, alive);
    ClockGrows(c.w, tr, next);
    ending, next := AwaitQuiet(c, next, timeout);
    AllHandledLater(c, tr, tr, handled, next);
    AllHandledLater(c, [], tr, handled, next);
    VettedFirstFrom(c, tr, vetted, next);
    ExplainPolled(c, next, c.w(tr).clock + timeout, ending);
  }

  lemma ExplainUnverified(c: Call, tr: seq<Event>, listed: seq<Event>, next: seq<Event>, alive: seq<Child>, until: int)
    requires NoGroups(tr) && OnlyObserves(tr, next) && listed <= next
    requires forall child :: child in alive ==> SeenAlive(tr, listed, Pid(c.state, child))
    requires exists child :: child in alive && Refuted(c, next, child)
    ensures Explained(c, next, until, ChildUnverified)
  {
    hide Refuted, SeenAlive;
    var child :| child in alive && Refuted(c, next, child);
    SeenLater([], tr, listed, next, Pid(c.state, child));
  }

  lemma ExplainFailed(c: Call, tr: seq<Event>, next: seq<Event>, alive: seq<Child>, until: int)
    requires tr <= next && forall child :: child in alive ==> Trusted(c, tr, child)
    requires exists i :: 0 <= i < |alive| && Unsignaled(next, Pid(c.state, alive[i])) && HandledFrom(c, tr, next, alive, i + 1)
    ensures Explained(c, next, until, SignalFailed)
  {
    hide Trusted, Unsignaled, HandledFrom;
    var i :| 0 <= i < |alive| && Unsignaled(next, Pid(c.state, alive[i])) && HandledFrom(c, tr, next, alive, i + 1);
    assert alive[i] in alive;
    TrustedLater(c, tr, next, alive[i]);
  }

  lemma ExplainPolled(c: Call, next: seq<Event>, until: int, ending: Ending)
    requires ending in {Cleaned, TimedOut}
    requires ending.Cleaned? ==> EndsWith(next, QuietView(c.state) + [Unlink])
    requires ending.TimedOut? ==> next != [] && next[|next| - 1].Clock? && next[|next| - 1].now >= until
    requires AllHandled(c, [], next) || (ending.TimedOut? && NoGroups(next))
    ensures Explained(c, next, until, ending)
  {
    hide EndsWith, QuietView, AllHandled;
  }

  lemma ExplainedSooner(c: Call, next: seq<Event>, until: int, sooner: int, ending: Ending)
    requires Explained(c, next, until, ending) && sooner <= until
    ensures Explained(c, next, sooner, ending)
  {
    hide EndsWith, QuietView, Contradicts, Refuted, SeenAlive, Trusted, Unsignaled, AllHandled;
  }

  lemma HandledSoFar(c: Call, tr: seq<Event>, listed: seq<Event>, next: seq<Event>, alive: seq<Child>)
    requires tr <= listed <= next
    requires forall child: Child :: child in alive || Pid(c.state, child) <= 0 || Gone(tr, listed, Pid(c.state, child))
    requires forall child :: child in alive ==> Handled(tr, next, Pid(c.state, child))
    ensures AllHandled(c, tr, next)
  {
    hide Gone;
    forall child: Child | Pid(c.state, child) > 0 ensures Handled(tr, next, Pid(c.state, child)) {
      if child !in alive { GoneLater(tr, listed, next, Pid(c.state, child)); }
    }
  }

  lemma AllVetted(c: Call, tr: seq<Event>, listed: seq<Event>, now: seq<Event>, alive: seq<Child>)
    requires listed <= now
    requires forall child: Child :: child in alive || Pid(c.state, child) <= 0 || Gone(tr, listed, Pid(c.state, child))
    requires forall child :: child in alive ==> Trusted(c, now, child)
    ensures Vetted(c, tr, now)
  {
    hide Trusted, Gone;
    forall child: Child | Pid(c.state, child) > 0 && child !in alive ensures Gone(tr, now, Pid(c.state, child)) {
      GoneLater(tr, listed, now, Pid(c.state, child));
    }
  }

  lemma AllHandledLater(c: Call, start: seq<Event>, tr: seq<Event>, handled: seq<Event>, next: seq<Event>)
    requires start <= tr <= handled <= next && AllHandled(c, tr, handled)
    ensures AllHandled(c, start, next)
  {
    hide Handled;
    forall child: Child | Pid(c.state, child) > 0 ensures Handled(start, next, Pid(c.state, child)) {
      HandledLater(start, tr, handled, next, Pid(c.state, child));
    }
  }

  lemma SleepTakes(w: World, tr: seq<Event>)
    requires Ticking(w)
    ensures w(tr + [Sleep]).clock >= w(tr).clock + 200
  {
  }

  // `time.monotonic()`
  method ReadClock(c: Call, tr: seq<Event>) returns (now: int, next: seq<Event>)
    requires Sound(c, tr) && Ticking(c.w)
    ensures Sound(c, next) && next == tr + [Clock(now)] && now == c.w(tr).clock <= c.w(next).clock
    ensures Sleeps(next) == Sleeps(tr)
  {
    hide Sound;
    SleepsAppend(tr, Clock(c.w(tr).clock));
    now := c.w(tr).clock;
    Add(c, tr, Clock(now));
    next := tr + [Clock(now)];
  }

  // ---- Stopping ----

  // Groups are only signaled after the supervisor was seen to be gone.
  ghost predicate GroupsAfterSupervisor(tr: seq<Event>, pid: int) {
    forall k :: 0 <= k < |tr| && tr[k].SignalGroup? ==> Gone([], tr[..k], pid)
  }

  predicate NoGroups(tr: seq<Event>) { forall k :: 0 <= k < |tr| ==> !tr[k].SignalGroup? }

  lemma GroupsAfter(tr: seq<Event>, next: seq<Event>, pid: int)
    requires NoGroups(tr) && tr <= next && Gone([], tr, pid)
    ensures GroupsAfterSupervisor(next, pid) && Gone([], next, pid)
  {
    hide Gone;
    forall k | 0 <= k < |next| && next[k].SignalGroup? ensures Gone([], next[..k], pid) {
      assert k >= |tr|;
      assert tr <= next[..k];
      GoneLater([], tr, next[..k], pid);
    }
    GoneLater([], tr, next, pid);
  }

  // `state_path.exists()`
  method RecordThere(c: Call, tr: seq<Event>) returns (there: bool, next: seq<Event>)
    requires Sound(c, tr)
    ensures Sound(c, next) && next == tr + [Exists(there)] && Sleeps(next) == Sleeps(tr)
    ensures there <==> !c.w(tr).record.Absent?
  {
    there := !c.w(tr).record.Absent?;
    hide Sound, Sleeps;
    SleepsAppend(tr, Exists(there));
    Observe(c, tr, Exists(there));
    next := tr + [Exists(there)];
  }

  lemma EndsHere(tr: seq<Event>, tail: seq<Event>)
    ensures EndsWith(tr + tail, tail)
  {
  }

  lemma NotThereEnds(tr: seq<Event>)
    ensures EndsWith(tr + [Exists(false)] + [Port(0, false), Port(1, false)], [Exists(false), Port(0, false), Port(1, false)])
  {
    EndsHere(tr, [Exists(false), Port(0, false), Port(1, false)]);
    assert tr + [Exists(false)] + [Port(0, false), Port(1, false)] == tr + [Exists(false), Port(0, false), Port(1, false)];
  }

  // Every event of the trace was answered by the world.
  ghost predicate Answered(w: World, tr: seq<Event>) { forall k :: 0 <= k < |tr| ==> Answers(w(tr[..k]), tr[k]) }

  lemma SoundAnswered(c: Call, tr: seq<Event>)
    requires Sound(c, tr) && c.begin == 0
    ensures Answered(c.w, tr)
  {
    hide Answers, Justified;
  }

  // A stop without a readable record looks, and touches nothing.
  method StopUnrecorded(w: World, tr: seq<Event>) returns (ending: Ending, next: seq<Event>)
    requires !w([]).record.Readable? && tr == [Record(w([]).record)]
    ensures OnlyObserves(tr, next) && Sleeps(next) == Sleeps(tr) && Answered(w, next)
    ensures |next| > 1 && next[1] == Exists(ending.InvalidRecord?)
    ensures ending in {InvalidRecord, PortsOccupied, NotRecorded}
    ensures ending.InvalidRecord? ==> EndsWith(next, [Exists(true)])
    ensures ending.NotRecorded? ==> EndsWith(next, [Exists(false), Port(0, false), Port(1, false)])
    ensures ending.PortsOccupied? ==> EndsWith(next, [Port(0, true)]) || EndsWith(next, [Port(1, true)])
  {
    var c := Call(w, "", State("", 0, "", 0, None, 0, None), 0);
    SoundStart(c);
    hide Sound, Justified, Answers, EndsWith, Sleeps, Restless;
    var there;
    there, next := RecordThere(c, tr);
    SoundAnswered(c, next);
    if there {
      EndsHere(tr, [Exists(true)]);
      return InvalidRecord, next;
    }
    var busy;
    busy, next := PortsBusy(c, next);
    SoundAnswered(c, next);
    if busy { return PortsOccupied, next; }
    NotThereEnds(tr);
    return NotRecorded, next;
  }

  // Reconciles in the time that is left, but at least for one poll.
  method ReconcileBefore(c: Call, tr: seq<Event>, deadline: int) returns (ending: Ending, next: seq<Event>)
    requires Sound(c, tr) && Ticking(c.w) && NoGroups(tr) && Gone([], tr, c.state.supervisor)
    ensures Sound(c, next) && tr <= next && KeepsRecord(tr, next, ending)
    ensures ending in {Cleaned, ChildUnverified, SignalFailed, TimedOut} && Explained(c, next, deadline, ending)
    ensures GroupsAfterSupervisor(next, c.state.supervisor) && Gone([], next, c.state.supervisor)
    ensures VettedFirst(c, [], next)
    ensures Waits(tr, next, if deadline - c.w(tr).clock > 200 then deadline - c.w(tr).clock else 200)
  {
    hide Sound, Ticking, QuietView, Gone, Vetted, Handled, EndsWith, Sleeps, Explained, AllHandled, Restless;
    var left;
    left, next := ReadClock(c, tr);
    ghost var asked := next;
    GoneLater([], tr, next, c.state.supervisor);
    var rest := deadline - left;
    ending, next := ReconcileDeadSupervisor(c, next, if rest > 200 then rest else 200);
    GroupsAfter(asked, next, c.state.supervisor);
    VettedFromStart(c, asked, next);
    ExplainedSooner(c, next, c.w(asked).clock + if rest > 200 then rest else 200, deadline, ending);
  }

  // Waits for the signaled supervisor to go, and then reconciles.
  method AwaitSupervisor(c: Call, tr: seq<Event>, timeout: int) returns (ending: Ending, next: seq<Event>)
    requires Sound(c, tr) && Ticking(c.w) && NoGroups(tr)
    ensures Sound(c, next) && tr <= next && KeepsRecord(tr, next, ending)
    ensures ending in {Cleaned, ChildUnverified, SignalFailed, TimedOut} && Explained(c, next, c.w(tr).clock + timeout, ending)
    ensures GroupsAfterSupervisor(next, c.state.supervisor) && (!ending.TimedOut? ==> Gone([], next, c.state.supervisor))
    ensures VettedFirst(c, [], next) && Waits(tr, next, timeout)
  {
    hide Sound, Ticking, QuietView, Gone, Vetted, Unsignaled, Refuted, Sleeps, Explained, EndsWith, Restless;
    var now;
    now, next := ReadClock(c, tr);
    ghost var start := now;
    var deadline := now + timeout;
    now, next := ReadClock(c, next);
    while now < deadline
      invariant Sound(c, next) && NoUnlink(tr, next) && NoGroups(next)
      invariant next != [] && next[|next| - 1] == Clock(now) && now <= c.w(next).clock
      invariant Sleeps(next) >= Sleeps(tr) && 200 * (Sleeps(next) - Sleeps(tr)) <= now - start
      invariant Waits(tr, next, timeout)
      decreases deadline - now
    {
      var alive;
      ghost var before := next;
      alive, next := Lives(c, next, c.state.supervisor);
      ClockGrows(c.w, before, next);
      if !alive {
        SeenGone(before, next, c.state.supervisor);
        ending, next := ReconcileBefore(c, next, deadline);
        return;
      }
      SupervisorRestless(c, before, next);
      now, next := Pause(c, next);
    }
    ExplainPolled(c, next, deadline, TimedOut);
    return TimedOut, next;
  }

  lemma SupervisorRestless(c: Call, tr: seq<Event>, next: seq<Event>)
    requires Sound(c, tr) && next == tr + [Command(c.state.supervisor, CommandOf(c.w(tr), c.state.supervisor))]
    requires CommandOf(c.w(tr), c.state.supervisor).Some?
    ensures Restless(c, next)
  {
    BeginBounds(c, tr);
    hide Sound;
    assert StillRuns(c.state, next[|tr|]);
  }

  lemma SeenGone(tr: seq<Event>, next: seq<Event>, pid: int)
    requires next == tr + [Command(pid, None)]
    ensures Gone([], next, pid)
  {
    assert next[|tr|] == Command(pid, None);
  }

  method RuntimeProcessMatches(c: Call, tr: seq<Event>) returns (ok: bool, next: seq<Event>)
    requires Sound(c, tr)
    ensures Sound(c, next) && OnlyObserves(tr, next)
    ensures ok ==> c.state.repoRoot == c.root && Owned(next, c.begin, SupervisorIdentity(c.root, c.state))
                   && |next| == |tr| + 3 && CheckedAt(next, |tr|, SupervisorIdentity(c.root, c.state))
    ensures Sleeps(next) == Sleeps(tr)
    ensures !ok ==> c.state.repoRoot != c.root
                    || (tr < next && Contradicts(next[|next| - 1], SupervisorIdentity(c.root, c.state)))
  {
    hide Sound, Sleeps;
    if c.state.repoRoot != c.root { return false, tr; }
    ok, next := Matches(c, tr, SupervisorIdentity(c.root, c.state));
  }

  // Signals the verified supervisor, and waits for it.
  method StopSupervisor(c: Call, tr: seq<Event>, timeout: int) returns (ending: Ending, next: seq<Event>)
    requires Sound(c, tr) && Ticking(c.w) && NoGroups(tr)
    requires c.state.repoRoot == c.root && Owned(tr, c.begin, SupervisorIdentity(c.root, c.state))
    ensures Sound(c, next) && tr < next && GroupsAfterSupervisor(next, c.state.supervisor)
    ensures ending in {Cleaned, ChildUnverified, SignalFailed, TimedOut, SupervisorVanished}
    ensures Explained(c, next, c.w(tr).clock + timeout, ending) && KeepsRecord(tr, next, ending)
    ensures next[|tr|] == SignalProcess(c.state.supervisor, !ending.SupervisorVanished?)
    ensures ending in {TimedOut, SupervisorVanished} || Gone([], next, c.state.supervisor)
    ensures VettedFirst(c, [], next) && Waits(tr, next, timeout)
  {
    hide Sound, Ticking, Gone, QuietView, Vetted, Sleeps, Contradicts, Refuted, SeenAlive, Trusted, Unsignaled;
    var e := SignalProcess(c.state.supervisor, c.state.supervisor in c.w(tr).deliverable);
    assert Justified(c, tr, e);
    hide Owned, Justified;
    Add(c, tr, e);
    SleepsAppend(tr, e);
    next := tr + [e];
    ghost var signaled := next;
    ClockGrows(c.w, tr, next);
    EndsHere(tr, [e]);
    if !e.delivered { return SupervisorVanished, next; }
    hide Explained, EndsWith;
    ending, next := AwaitSupervisor(c, next, timeout);
    ExplainedSooner(c, next, c.w(signaled).clock + timeout, c.w(tr).clock + timeout, ending);
  }

  // What was seen of the supervisor decides: it is gone, and the children are
  // reconciled without a signal to it; or it is refused; or it is signaled, at
  // once after the three observations that identify it.
  ghost predicate SupervisorFirst(c: Call, tr: seq<Event>, next: seq<Event>, ending: Ending) {
    && |tr| < |next| && next[|tr|] == Command(c.state.supervisor, CommandOf(c.w(tr), c.state.supervisor))
    && match next[|tr|].command
       case None =>
         ending in {Cleaned, ChildUnverified, SignalFailed, TimedOut}
       case Some(_) =>
         || ending.SupervisorUnverified?
         || (&& |tr| + 4 < |next| && c.state.repoRoot == c.root && CheckedAt(next, |tr| + 1, SupervisorIdentity(c.root, c.state))
             && next[|tr| + 4] == SignalProcess(c.state.supervisor, !ending.SupervisorVanished?))
  }

  method StopReadable(c: Call, tr: seq<Event>, timeout: int) returns (ending: Ending, next: seq<Event>)
    requires Sound(c, tr) && Ticking(c.w) && NoGroups(tr) && OnlyObserves([], tr)
    ensures Sound(c, next) && tr <= next && GroupsAfterSupervisor(next, c.state.supervisor)
    ensures SupervisorFirst(c, tr, next, ending) && Explained(c, next, c.w(tr).clock + timeout, ending)
    ensures KeepsRecord([], next, ending) && (ending.SupervisorUnverified? ==> OnlyObserves([], next))
    ensures ending in {TimedOut, SupervisorUnverified, SupervisorVanished} || Gone([], next, c.state.supervisor)
    ensures VettedFirst(c, [], next) && Waits(tr, next, timeout)
  {
    hide Sound, Ticking, Gone, QuietView, Owned, Contradicts, EndsWith, Vetted, Sleeps, Explained, AllHandled, CheckedAt;
    var ok;
    ok, next := Lives(c, tr, c.state.supervisor);
    ghost var asked := next;
    ClockGrows(c.w, tr, asked);
    if !ok {
      SeenGone(tr, next, c.state.supervisor);
      ending, next := ReconcileDeadSupervisor(c, next, timeout);
      GroupsAfter(asked, next, c.state.supervisor);
      VettedFromStart(c, asked, next);
      ExplainedSooner(c, next, c.w(asked).clock + timeout, c.w(tr).clock + timeout, ending);
      return;
    }
    ok, next := RuntimeProcessMatches(c, next);
    if !ok {
      ExplainRefusal(c, next, c.w(tr).clock + timeout);
      return SupervisorUnverified, next;
    }
    ghost var checked := next;
    ClockGrows(c.w, asked, checked);
    ending, next := StopSupervisor(c, next, timeout);
    CheckedLater(checked, next, |asked|, SupervisorIdentity(c.root, c.state));
    ExplainedSooner(c, next, c.w(checked).clock + timeout, c.w(tr).clock + timeout, ending);
  }

  lemma ExplainRefusal(c: Call, next: seq<Event>, until: int)
    requires c.state.repoRoot != c.root || (next != [] && Contradicts(next[|next| - 1], SupervisorIdentity(c.root, c.state)))
    ensures Explained(c, next, until, SupervisorUnverified)
  {
  }

  lemma CheckedLater(tr: seq<Event>, next: seq<Event>, a: nat, id: Identity)
    requires tr <= next && CheckedAt(tr, a, id)
    ensures CheckedAt(next, a, id)
  {
  }

  method StopRecordedRuntime(w: World, root: string, timeout: int) returns (ending: Ending, next: seq<Event>)
    requires Ticking(w)
    ensures Answered(w, next) && next != [] && next[0] == Record(w([]).record)
    ensures !w([]).record.Readable? ==>
              && OnlyObserves([], next) && ending in {InvalidRecord, PortsOccupied, NotRecorded}
              && |next| > 1 && next[1] == Exists(ending.InvalidRecord?)
    ensures w([]).record.Readable? ==>
              var c := Call(w, root, w([]).record.state, 0);
              && Sound(c, next) && GroupsAfterSupervisor(next, c.state.supervisor) && VettedFirst(c, [], next)
              && SupervisorFirst(c, next[..1], next, ending) && Explained(c, next, w([]).clock + timeout, ending)
              && (ending in {TimedOut, SupervisorUnverified, SupervisorVanished} || Gone([], next, c.state.supervisor))
    ensures KeepsRecord([], next, ending) && Waits([], next, timeout)
    ensures ending in {InvalidRecord, PortsOccupied, NotRecorded, SupervisorUnverified} ==> OnlyObserves([], next)
    ensures ending.InvalidRecord? ==> EndsWith(next, [Exists(true)])
    ensures ending.NotRecorded? ==> EndsWith(next, [Exists(false), Port(0, false), Port(1, false)])
    ensures ending.PortsOccupied? ==> EndsWith(next, [Port(0, true)]) || EndsWith(next, [Port(1, true)])
  {
    var record := w([]).record;
    next := [Record(record)];
    assert Sleeps([]) == Sleeps(next) == 0 by { SleepsAppend([], Record(record)); assert [] + [Record(record)] == next; }
    if !record.Readable? {
      ending, next := StopUnrecorded(w, next);
      return;
    }
    var c := Call(w, root, record.state, 0);
    SoundStart(c);
    hide Sound, Gone, QuietView, Owned, EndsWith, VettedFirst, Sleeps, Explained, SupervisorFirst, Answered;
    ghost var begun := next;
    ClockGrows(w, [], begun);
    hide Ticking;
    ending, next := StopReadable(c, next, timeout);
    assert next[..1] == begun;
    SoundAnswered(c, next);
    ExplainedSooner(c, next, w(begun).clock + timeout, w([]).clock + timeout, ending);
  }

  lemma SoundStart(c: Call)
    requires c.begin == 0
    ensures Sound(c, [Record(c.w([]).record)])
  {
    assert Sound(c, []);
    assert [] + [Record(c.w([]).record)] == [Record(c.w([]).record)];
    Add(c, [], Record(c.w([]).record));
  }

  // ---- What the actions of a stop relied on ----

  // The three looks from a on found the pid with this directory and signature
  // and a command that holds the markers, each at its own moment.
  ghost predicate Seen(w: World, tr: seq<Event>, a: nat, pid: int, markers: set<string>, cwd: string, signature: string)
    requires a + 3 <= |tr|
  {
    var first, second, third := w(tr[..a]).procs, w(tr[..a + 1]).procs, w(tr[..a + 2]).procs;
    && pid in first && first[pid].command.Some? && (forall m :: m in markers ==> Contains(first[pid].command.value, m))
    && pid in second && second[pid].cwd == Some(cwd)
    && pid in third && third[pid].start == Some(signature)
  }

  ghost predicate SeenBefore(c: Call, tr: seq<Event>, k: nat, pid: int, markers: set<string>, cwd: string, signature: string)
    requires k <= |tr|
  {
    exists a: nat :: c.begin <= a && a + 3 <= k && Seen(c.w, tr, a, pid, markers, cwd, signature)
  }

  lemma OwnedSeen(c: Call, tr: seq<Event>, k: nat, id: Identity, markers: set<string>)
    requires Sound(c, tr) && k <= |tr| && Owned(tr[..k], c.begin, id)
    requires forall m :: m in markers ==> m in id.markers
    ensures SeenBefore(c, tr, k, id.pid, markers, id.cwd, id.signature)
  {
    hide Justified;
    var a: nat :| c.begin <= a && CheckedAt(tr[..k], a, id);
    assert CheckedAt(tr, a, id);
    SeenAt(c, tr, a, id, markers);
  }

  lemma SeenAt(c: Call, tr: seq<Event>, a: nat, id: Identity, markers: set<string>)
    requires Sound(c, tr) && c.begin <= a && CheckedAt(tr, a, id)
    requires forall m :: m in markers ==> m in id.markers
    ensures Seen(c.w, tr, a, id.pid, markers, id.cwd, id.signature)
  {
    hide Justified;
    assert Answers(c.w(tr[..a]), tr[a]);
    assert Answers(c.w(tr[..a + 1]), tr[a + 1]);
    assert Answers(c.w(tr[..a + 2]), tr[a + 2]);
  }

  // A process is signaled only when the record is of this repository and the
  // process showed the launcher's command, the root directory and the recorded
  // start signature.
  lemma SignaledSupervisor(c: Call, tr: seq<Event>, k: nat)
    requires Sound(c, tr) && c.begin <= k < |tr| && tr[k].SignalProcess?
    ensures tr[k].pid == c.state.supervisor && c.state.repoRoot == c.root
    ensures SeenBefore(c, tr, k, c.state.supervisor, {"scripts/start_local.py"}, c.root, c.state.supervisorSignature)
  {
    assert Justified(c, tr[..k], tr[k]);
    hide Sound, Owned;
    OwnedSeen(c, tr, k, SupervisorIdentity(c.root, c.state), {"scripts/start_local.py"});
  }

  // A group is signaled only when its leader was just seen to lead it, and it
  // is the recorded backend or frontend with its own command, directory and
  // recorded start signature.
  lemma SignaledGroup(c: Call, tr: seq<Event>, k: nat)
    requires Sound(c, tr) && c.begin <= k < |tr| && tr[k].SignalGroup?
    ensures k > 0 && tr[k - 1] == Group(tr[k].pid, Some(tr[k].pid)) && tr[k].pid > 0
    ensures || (&& tr[k].pid == c.state.backend && c.state.backendSignature.Some? && c.state.backendSignature.value != ""
                && SeenBefore(c, tr, k, tr[k].pid, {"uvicorn", "app.main:app"}, c.root, c.state.backendSignature.value))
            || (&& tr[k].pid == c.state.frontend && c.state.frontendSignature.Some? && c.state.frontendSignature.value != ""
                && SeenBefore(c, tr, k, tr[k].pid, {"npm", "run", "dev"}, c.root + "/web", c.state.frontendSignature.value))
  {
    assert Justified(c, tr[..k], tr[k]);
    hide Sound, Owned, SeenBefore;
    assert tr[..k][|tr[..k]| - 1..] == [Group(tr[k].pid, Some(tr[k].pid))];
    assert tr[k - 1] == tr[..k][|tr[..k]| - 1..][0];
    var child :| Pid(c.state, child) == tr[k].pid && Trusted(c, tr[..k], child);
    MarkersOf(c.root, c.state);
    OwnedSeen(c, tr, k, ChildIdentity(c.root, c.state, child),
              if child.Backend? then {"uvicorn", "app.main:app"} else {"npm", "run", "dev"});
  }

  lemma MarkersOf(root: string, s: State)
    ensures forall m :: m in {"uvicorn", "app.main:app"} ==> m in ChildIdentity(root, s, Backend).markers
    ensures forall m :: m in {"npm", "run", "dev"} ==> m in ChildIdentity(root, s, Frontend).markers
  {
    assert ["uvicorn", "app.main:app"][1] == "app.main:app";
    assert ["npm", "run", "dev"][1] == "run" && ["npm", "run", "dev"][2] == "dev";
  }

  // The record is removed only when just before both ports were free, and
  // before that each recorded child was gone.
  lemma RemovedRecord(c: Call, tr: seq<Event>, k: nat)
    requires Sound(c, tr) && c.begin <= k < |tr| && tr[k].Unlink?
    ensures k >= c.begin + 2 && 1 !in c.w(tr[..k - 1]).busy && 0 !in c.w(tr[..k - 2]).busy
    ensures c.state.frontend > 0 ==> k > c.begin + 2 && CommandOf(c.w(tr[..k - 3]), c.state.frontend).None?
    ensures c.state.backend > 0 ==>
              var at := if c.state.frontend > 0 then k - 4 else k - 3;
              at >= c.begin && CommandOf(c.w(tr[..at]), c.state.backend).None?
  {
    assert Justified(c, tr[..k], tr[k]);
    var n := |QuietView(c.state)|;
    assert tr[..k][k - n..] == QuietView(c.state);
    forall j | 0 <= j < n ensures tr[k - n + j] == QuietView(c.state)[j] && Answers(c.w(tr[..k - n + j]), tr[k - n + j]) {
      assert tr[k - n + j] == tr[..k][k - n..][j];
    }
    hide Justified;
    assert tr[k - n + n - 1] == Port(1, false) && tr[k - n + n - 2] == Port(0, false);
    if c.state.frontend > 0 { assert tr[k - n + n - 3] == Command(c.state.frontend, None); }
    if c.state.backend > 0 { assert tr[k - n + 0] == Command(c.state.backend, None); }
  }

  // A stop waits only when one of its last two looks found the supervisor, a
  // child or a port still in use.
  lemma WaitedFor(c: Call, tr: seq<Event>, k: nat)
    requires Sound(c, tr) && c.begin <= k < |tr| && tr[k].Sleep?
    ensures exists j: nat :: c.begin <= j < k <= j + 2 &&
              if tr[j].Port? then tr[j].port in c.w(tr[..j]).busy
              else tr[j].Command? && tr[j].pid in {c.state.supervisor, c.state.backend, c.state.frontend} * c.w(tr[..j]).procs.Keys
  {
    assert Justified(c, tr[..k], tr[k]);
    var j :| c.begin <= j < k <= j + 2 && StillRuns(c.state, tr[..k][j]);
    assert tr[..k][j] == tr[j] && Answers(c.w(tr[..j]), tr[j]);
  }

  // A refusal names what was missing or what was seen instead.
  lemma RefusedSupervisor(c: Call, next: seq<Event>, until: int)
    requires Explained(c, next, until, SupervisorUnverified) && c.state.repoRoot == c.root
    ensures next != [] && Differs(next[|next| - 1], c.state.supervisor, ["scripts/start_local.py"], c.root, c.state.supervisorSignature)
  {
  }

  lemma RefusedChild(c: Call, next: seq<Event>, until: int)
    requires Explained(c, next, until, ChildUnverified)
    ensures || (&& c.state.backend > 0 && SeenAlive([], next, c.state.backend)
                && (c.state.backendSignature in {None, Some("")}
                    || (next != [] && Differs(next[|next| - 1], c.state.backend, ["uvicorn", "app.main:app"], c.root,
                                              c.state.backendSignature.value))))
            || (&& c.state.frontend > 0 && SeenAlive([], next, c.state.frontend)
                && (c.state.frontendSignature in {None, Some("")}
                    || (next != [] && Differs(next[|next| - 1], c.state.frontend, ["npm", "run", "dev"], c.root + "/web",
                                              c.state.frontendSignature.value))))
  {
    hide SeenAlive;
    var child :| Refuted(c, next, child) && SeenAlive([], next, Pid(c.state, child));
  }

  // The look found another command, directory or start signature, or none.
  predicate Differs(e: Event, pid: int, markers: seq<string>, cwd: string, signature: string) {
    || (e.Command? && e.pid == pid && (e.command.None? || exists i :: 0 <= i < |markers| && !Contains(e.command.value, markers[i])))
    || (e.Cwd? && e.pid == pid && e.cwd != Some(cwd))
    || (e.Start? && e.pid == pid && e.signature != Some(signature))
  }

  // ---- Process ids are reused ----

  // What is assumed of the operating system: a process has its pid from its
  // birth on without a gap, and one that was born during the call does not have
  // the recorded start signature. The second clause is what makes the signature
  // an identity; it fails only if a pid is reused within the resolution of `ps`.
  ghost predicate Lifetimes(w: World, begin: nat, signature: string) {
    forall tr, pid :: pid in w(tr).procs ==>
      var p := w(tr).procs[pid];
      && p.born <= |tr| && (p.start == Some(signature) ==> p.born <= begin)
      && forall k :: p.born <= k <= |tr| ==> pid in w(tr[..k]).procs && w(tr[..k]).procs[pid].born == p.born
  }

  // Given that, the three observations of a successful check, made one after
  // the other, saw one process, the one that had the pid when the call began.
  lemma OneProcess(c: Call, tr: seq<Event>, a: nat, id: Identity)
    requires Sound(c, tr) && Lifetimes(c.w, c.begin, id.signature) && c.begin <= a && CheckedAt(tr, a, id)
    ensures var p := c.w(tr[..a + 2]).procs;
            && id.pid in p && p[id.pid].born <= c.begin
            && (forall k :: c.begin <= k <= a + 2 ==>
                  id.pid in c.w(tr[..k]).procs && c.w(tr[..k]).procs[id.pid].born == p[id.pid].born)
  {
    assert Answers(c.w(tr[..a + 2]), tr[a + 2]);
    var p := c.w(tr[..a + 2]).procs[id.pid];
    assert p.start == Some(id.signature) && p.born <= c.begin;
    forall k | c.begin <= k <= a + 2
      ensures id.pid in c.w(tr[..k]).procs && c.w(tr[..k]).procs[id.pid].born == p.born
    {
      assert tr[..a + 2][..k] == tr[..k];
    }
  }
}
