/** `controller.RTController`: the run preconditions, the running flag,
    and the translation of one keyboard snapshot into a command set, with
    a lock per single-press command so that holding its key emits it only
    once. The keyboard is the state `glfwGetKey` reports for each key
    during one `Input` call. */
module Controller {
  import opened Wrappers
  import opened Commands

  datatype Key =
    | KeyQ | KeyZ | KeyX | KeyC | KeyV
    | LeftShift | LeftControl
    | KeyW | KeyS | KeyA | KeyD
    | Space | KeyR | KeyT | Key1 | Key2

  /** `GLFW_PRESS` and `GLFW_RELEASE`. */
  datatype KeyState = Pressed | Released

  type Keyboard = Key -> KeyState

  /** The key bound to each movement and single-press command. */
  function KeyOf(c: Command): Key {
    match c
    case Forward => KeyW
    case Backward => KeyS
    case Left => KeyA
    case Right => KeyD
    case Jump => Space
    case Remove => KeyR
    case Add => KeyT
    case StartDebug => Key1
    case EndDebug => Key2
    case Speed1 => LeftShift
    case Speed01 => LeftShift
    case Speed0025 => LeftControl
  }

  /** `isRunning`, the single-press commands whose entry in the lock table
      is `true` (ready to fire), and the last command set. */
  datatype Controller = Controller(running: bool, ready: set<Command>, commands: set<Command>)

  /** A new controller: running, no lock table and no commands yet. */
  const Initial: Controller := Controller(true, {}, {})

  /** The two `RuntimeException`s of `run`. */
  datatype StartError = EngineMissing | DisplayMissing

  /** The checks and table set-up of `run` before it starts the threads. */
  function Start(c: Controller, engineHooked: bool, displayHooked: bool): (r: Result<Controller, StartError>)
    ensures r.Err? <==> !engineHooked || !displayHooked
    ensures !engineHooked ==> r == Err(EngineMissing)
    ensures engineHooked && !displayHooked ==> r == Err(DisplayMissing)
    ensures r.Ok? ==> r.value.running == c.running && r.value.commands == {}
    ensures r.Ok? ==> forall s :: IsSinglePress(s) ==> s in r.value.ready
  {
    if !engineHooked then Err(EngineMissing)
    else if !displayHooked then Err(DisplayMissing)
    else Ok(c.(ready := SinglePress, commands := {}))
  }

  /** `toClose`. */
  function ToClose(c: Controller): (r: Controller)
    ensures !r.running && r.ready == c.ready && r.commands == c.commands
  {
    c.(running := false)
  }

  /** `keyHandler`: the lock test, emission and locking, then the unlock
      test, applied one after the other as written. Afterwards the command
      is ready exactly when its key is up, and it was emitted exactly when
      it was ready and its key down; other commands are untouched. */
  function KeyHandler(ready: set<Command>, emitted: set<Command>, cmd: Command, state: KeyState)
    : (r: (set<Command>, set<Command>))
    ensures cmd in r.0 <==> state == Released
    ensures cmd in r.1 <==> cmd in emitted || (cmd in ready && state == Pressed)
    ensures r.0 - {cmd} == ready - {cmd} && r.1 - {cmd} == emitted - {cmd}
  {
    var locked := cmd in ready && state == Pressed;
    var ready1 := if locked then ready - {cmd} else ready;
    var emitted1 := if locked then emitted + {cmd} else emitted;
    if cmd !in ready1 && state == Released then (ready1 + {cmd}, emitted1) else (ready1, emitted1)
  }

  /** What one `keyHandler` call leaves for its command. */
  predicate Handled(ready: set<Command>, emitted: set<Command>, r: (set<Command>, set<Command>), cmd: Command, kb: Keyboard) {
    && (cmd in r.0 <==> kb(KeyOf(cmd)) == Released)
    && (cmd in r.1 <==> cmd in emitted || (cmd in ready && kb(KeyOf(cmd)) == Pressed))
  }

  /** The first three `keyHandler` calls of `Input`: jump, remove, add. */
  function DebounceEdit(ready: set<Command>, emitted: set<Command>, kb: Keyboard): (r: (set<Command>, set<Command>))
    ensures Handled(ready, emitted, r, Jump, kb) && Handled(ready, emitted, r, Remove, kb)
    ensures Handled(ready, emitted, r, Add, kb)
    ensures r.0 - {Jump, Remove, Add} == ready - {Jump, Remove, Add}
    ensures r.1 - {Jump, Remove, Add} == emitted - {Jump, Remove, Add}
  {
    var r1 := KeyHandler(ready, emitted, Jump, kb(Space));
    var r2 := KeyHandler(r1.0, r1.1, Remove, kb(KeyR));
    var r3 := KeyHandler(r2.0, r2.1, Add, kb(KeyT));
    Untouched(r1, r2, Remove, Jump);
    Untouched(r2, r3, Add, Jump);
    Untouched(r2, r3, Add, Remove);
    Drop((ready, emitted), r1, Jump, {Jump, Remove, Add});
    Drop(r1, r2, Remove, {Jump, Remove, Add});
    Drop(r2, r3, Add, {Jump, Remove, Add});
    r3
  }

  /** Every single-press command handled, everything else untouched. */
  predicate Debounced(ready: set<Command>, emitted: set<Command>, kb: Keyboard, r: (set<Command>, set<Command>)) {
    && Handled(ready, emitted, r, Jump, kb) && Handled(ready, emitted, r, Remove, kb)
    && Handled(ready, emitted, r, Add, kb) && Handled(ready, emitted, r, StartDebug, kb)
    && Handled(ready, emitted, r, EndDebug, kb)
    && r.0 - SinglePress == ready - SinglePress && r.1 - SinglePress == emitted - SinglePress
  }

  /** The five `keyHandler` calls at the end of `Input`. */
  function Debounce(ready: set<Command>, emitted: set<Command>, kb: Keyboard): (r: (set<Command>, set<Command>))
    ensures Debounced(ready, emitted, kb, r)
  {
    var r3 := DebounceEdit(ready, emitted, kb);
    var r4 := KeyHandler(r3.0, r3.1, StartDebug, kb(Key1));
    var r5 := KeyHandler(r4.0, r4.1, EndDebug, kb(Key2));
    Untouched(r4, r5, EndDebug, StartDebug);
    Kept((ready, emitted), r3, {Jump, Remove, Add}, StartDebug);
    Kept((ready, emitted), r3, {Jump, Remove, Add}, EndDebug);
    Drop(r3, r4, StartDebug, {StartDebug, EndDebug});
    Drop(r4, r5, EndDebug, {StartDebug, EndDebug});
    Drop(r3, r4, StartDebug, SinglePress);
    Drop(r4, r5, EndDebug, SinglePress);
    Widen((ready, emitted), r3, {Jump, Remove, Add}, SinglePress);
    Kept(r3, r5, {StartDebug, EndDebug}, Jump);
    Kept(r3, r5, {StartDebug, EndDebug}, Remove);
    Kept(r3, r5, {StartDebug, EndDebug}, Add);
    r5
  }

  /** Entries outside a dropped set survive. */
  lemma Kept(a: (set<Command>, set<Command>), b: (set<Command>, set<Command>), d: set<Command>, x: Command)
    requires x !in d && b.0 - d == a.0 - d && b.1 - d == a.1 - d
    ensures (x in b.0 <==> x in a.0) && (x in b.1 <==> x in a.1)
  {
    assert x in b.0 - d <==> x in a.0 - d;
    assert x in b.1 - d <==> x in a.1 - d;
  }

  /** Equal outside `d`, so equal outside any superset of `d`. */
  lemma Widen(a: (set<Command>, set<Command>), b: (set<Command>, set<Command>), d: set<Command>, e: set<Command>)
    requires d <= e && b.0 - d == a.0 - d && b.1 - d == a.1 - d
    ensures b.0 - e == a.0 - e && b.1 - e == a.1 - e
  {
    assert b.0 - e == (b.0 - d) - e;
    assert a.0 - e == (a.0 - d) - e;
    assert b.1 - e == (b.1 - d) - e;
    assert a.1 - e == (a.1 - d) - e;
  }

  /** A handler for a command of `d` leaves the entries outside `d` as they were. */
  lemma Drop(a: (set<Command>, set<Command>), b: (set<Command>, set<Command>), c: Command, d: set<Command>)
    requires c in d && b.0 - {c} == a.0 - {c} && b.1 - {c} == a.1 - {c}
    ensures b.0 - d == a.0 - d && b.1 - d == a.1 - d
  {
    assert b.0 - d == (b.0 - {c}) - d;
    assert a.0 - d == (a.0 - {c}) - d;
    assert b.1 - d == (b.1 - {c}) - d;
    assert a.1 - d == (a.1 - {c}) - d;
  }

  /** A handler for `c` leaves every other command `x` as it was. */
  lemma Untouched(a: (set<Command>, set<Command>), b: (set<Command>, set<Command>), c: Command, x: Command)
    requires x != c && b.0 - {c} == a.0 - {c} && b.1 - {c} == a.1 - {c}
    ensures (x in b.0 <==> x in a.0) && (x in b.1 <==> x in a.1)
  {
    assert x in b.0 - {c} <==> x in a.0 - {c};
    assert x in b.1 - {c} <==> x in a.1 - {c};
  }

  /** Shift selects speed 1 or 0.1, Control adds 0.025, and each movement
      command is present exactly while its key is down; nothing else is. */
  predicate Leveled(kb: Keyboard, cmds: set<Command>) {
    && (Speed1 in cmds <==> kb(LeftShift) == Pressed)
    && (Speed01 in cmds <==> kb(LeftShift) == Released)
    && (Speed0025 in cmds <==> kb(LeftControl) == Pressed)
    && (Forward in cmds <==> kb(KeyW) == Pressed)
    && (Backward in cmds <==> kb(KeyS) == Pressed)
    && (Left in cmds <==> kb(KeyA) == Pressed)
    && (Right in cmds <==> kb(KeyD) == Pressed)
    && cmds <= {Speed1, Speed01, Speed0025, Forward, Backward, Left, Right}
  }

  /** The level-triggered part of `Input`: speed and movement commands. */
  function LevelCommands(kb: Keyboard): (cmds: set<Command>)
    ensures Leveled(kb, cmds)
  {
    var cmds: set<Command> := {};
    var cmds := if kb(LeftShift) == Pressed then cmds + {Speed1} else cmds;
    var cmds := if kb(LeftShift) == Released then cmds + {Speed01} else cmds;
    var cmds := if kb(LeftControl) == Pressed then cmds + {Speed0025} else cmds;
    var cmds := if kb(KeyW) == Pressed then cmds + {Forward} else cmds;
    var cmds := if kb(KeyS) == Pressed then cmds + {Backward} else cmds;
    var cmds := if kb(KeyA) == Pressed then cmds + {Left} else cmds;
    if kb(KeyD) == Pressed then cmds + {Right} else cmds
  }

  /** The file operations one call triggers (`saveState` / `loadState`). */
  datatype FileOp = SaveTo(name: string) | LoadFrom(name: string)

  function When<T>(b: bool, xs: seq<T>): seq<T> {
    if b then xs else []
  }

  /** Z, X, C and V save and load the files `state1` and `state2`, in
      that order. */
  function FileOps(kb: Keyboard): (ops: seq<FileOp>)
    ensures |ops| <= 4
    ensures SaveTo("state1") in ops <==> kb(KeyZ) == Pressed
    ensures LoadFrom("state1") in ops <==> kb(KeyX) == Pressed
    ensures SaveTo("state2") in ops <==> kb(KeyC) == Pressed
    ensures LoadFrom("state2") in ops <==> kb(KeyV) == Pressed
    ensures kb(KeyZ) == Pressed && kb(KeyX) == Pressed ==> ops[0] == SaveTo("state1") && ops[1] == LoadFrom("state1")
  {
    When(kb(KeyZ) == Pressed, [SaveTo("state1")]) + When(kb(KeyX) == Pressed, [LoadFrom("state1")])
    + When(kb(KeyC) == Pressed, [SaveTo("state2")]) + When(kb(KeyV) == Pressed, [LoadFrom("state2")])
  }

  /** `Input`: a fresh command set from one keyboard snapshot, and the
      file operations it triggers. */
  function Input(c: Controller, kb: Keyboard): (r: (Controller, seq<FileOp>))
    ensures kb(KeyQ) == Pressed ==> !r.0.running
    ensures kb(KeyQ) == Released ==> r.0.running == c.running
    ensures Speed1 in r.0.commands <==> kb(LeftShift) == Pressed
    ensures Speed01 in r.0.commands <==> kb(LeftShift) == Released
    ensures Speed0025 in r.0.commands <==> kb(LeftControl) == Pressed
    ensures forall m :: IsMovement(m) ==> (m in r.0.commands <==> kb(KeyOf(m)) == Pressed)
    ensures forall s :: IsSinglePress(s) ==> (s in r.0.commands <==> s in c.ready && kb(KeyOf(s)) == Pressed)
    ensures forall s :: IsSinglePress(s) ==> (s in r.0.ready <==> kb(KeyOf(s)) == Released)
    ensures forall x :: !IsSinglePress(x) ==> (x in r.0.ready <==> x in c.ready)
    ensures |r.1| <= 4
    ensures forall op :: op in r.1 ==> op in {SaveTo("state1"), LoadFrom("state1"), SaveTo("state2"), LoadFrom("state2")}
  {
    var running := if kb(KeyQ) == Pressed then false else c.running;
    var locks := Debounce(c.ready, LevelCommands(kb), kb);
    DebounceEntries(c.ready, LevelCommands(kb), kb, locks);
    (Controller(running, locks.0, locks.1), FileOps(kb))
  }

  /** Each call builds its command set afresh: the commands of the
      previous call have no influence on the next one. */
  lemma FreshCommandSet(c: Controller, kb: Keyboard, previous: set<Command>)
    ensures Input(c.(commands := previous), kb) == Input(c, kb)
  {
  }

  /** What the lock table and the command set hold for each command after
      the level-triggered commands and the five handlers. */
  lemma DebounceEntries(ready: set<Command>, cmds: set<Command>, kb: Keyboard, r: (set<Command>, set<Command>))
    requires Leveled(kb, cmds) && Debounced(ready, cmds, kb, r)
    ensures forall m :: IsMovement(m) ==> (m in r.1 <==> kb(KeyOf(m)) == Pressed)
    ensures forall s :: IsSinglePress(s) ==> (s in r.1 <==> s in ready && kb(KeyOf(s)) == Pressed)
    ensures forall s :: IsSinglePress(s) ==> (s in r.0 <==> kb(KeyOf(s)) == Released)
    ensures forall x :: !IsSinglePress(x) ==> (x in r.0 <==> x in ready)
    ensures Speed1 in r.1 <==> kb(LeftShift) == Pressed
    ensures Speed01 in r.1 <==> kb(LeftShift) == Released
    ensures Speed0025 in r.1 <==> kb(LeftControl) == Pressed
  {
    assert Speed1 in r.1 - SinglePress <==> Speed1 in cmds - SinglePress;
    assert Speed01 in r.1 - SinglePress <==> Speed01 in cmds - SinglePress;
    assert Speed0025 in r.1 - SinglePress <==> Speed0025 in cmds - SinglePress;
    forall m | IsMovement(m) ensures m in r.1 <==> kb(KeyOf(m)) == Pressed {
      DebounceEntry(ready, cmds, kb, r, m);
    }
    forall s | IsSinglePress(s)
      ensures s in r.1 <==> s in ready && kb(KeyOf(s)) == Pressed
      ensures s in r.0 <==> kb(KeyOf(s)) == Released
    {
      DebounceEntry(ready, cmds, kb, r, s);
    }
    forall x | !IsSinglePress(x) ensures x in r.0 <==> x in ready {
      DebounceEntry(ready, cmds, kb, r, x);
    }
  }

  /** The facts `DebounceEntries` states, for one command. */
  predicate DebouncedEntry(ready: set<Command>, kb: Keyboard, r: (set<Command>, set<Command>), x: Command) {
    && (IsMovement(x) ==> (x in r.1 <==> kb(KeyOf(x)) == Pressed))
    && (IsSinglePress(x) ==> (x in r.1 <==> x in ready && kb(KeyOf(x)) == Pressed))
    && (IsSinglePress(x) ==> (x in r.0 <==> kb(KeyOf(x)) == Released))
    && (!IsSinglePress(x) ==> (x in r.0 <==> x in ready))
  }

  lemma DebounceEntry(ready: set<Command>, cmds: set<Command>, kb: Keyboard, r: (set<Command>, set<Command>), x: Command)
    requires Leveled(kb, cmds) && Debounced(ready, cmds, kb, r)
    ensures DebouncedEntry(ready, kb, r, x)
  {
    if IsSinglePress(x) {
      assert x !in cmds;
      assert Handled(ready, cmds, r, x, kb);
    } else {
      assert x !in SinglePress;
      assert x in r.0 - SinglePress <==> x in ready - SinglePress;
      assert x in r.1 - SinglePress <==> x in cmds - SinglePress;
    }
  }

  /** Exactly one of the two base speeds is requested on every call. */
  lemma OneBaseSpeed(c: Controller, kb: Keyboard)
    ensures (Speed1 in Input(c, kb).0.commands) != (Speed01 in Input(c, kb).0.commands)
  {
  }

  // ---------------------------------------------------------------------
  // A load that throws

  /** How an `Input` call ends: normally, or by the exception of a
      `loadState` (a corrupt save file), which leaves the call at once. */
  datatype CallEnd = Completed | Aborted(file: string)

  /** Whether the operation is a load of one of the files whose
      `loadState` throws. */
  predicate Throws(op: FileOp, throwing: set<string>) {
    op.LoadFrom? && op.name in throwing
  }

  /** The position of the first throwing load, if any. */
  function FirstThrow(ops: seq<FileOp>, throwing: set<string>): (k: Option<nat>)
    ensures k.Some? ==> k.value < |ops| && Throws(ops[k.value], throwing)
    ensures k.Some? ==> forall i :: 0 <= i < k.value ==> !Throws(ops[i], throwing)
    ensures k.None? ==> forall i :: 0 <= i < |ops| ==> !Throws(ops[i], throwing)
  {
    if |ops| == 0 then None
    else if Throws(ops[0], throwing) then Some(0)
    else
      match FirstThrow(ops[1..], throwing)
      case None => None
      case Some(k) => Some(k + 1)
  }

  /** `Input` with the outcome of the loads supplied: `throwing` names the
      files whose `loadState` throws. The command set is replaced by an
      empty one and Q is handled before the file keys, so a throwing load
      leaves no commands, keeps every lock and skips the later file
      operations; otherwise the call is `Input`. */
  function InputCall(c: Controller, kb: Keyboard, throwing: set<string>): (r: (Controller, seq<FileOp>, CallEnd))
    ensures r.2.Completed? <==> forall i :: 0 <= i < |FileOps(kb)| ==> !Throws(FileOps(kb)[i], throwing)
    ensures r.2.Completed? ==> (r.0, r.1) == Input(c, kb)
    ensures kb(KeyQ) == Pressed ==> !r.0.running
    ensures kb(KeyQ) == Released ==> r.0.running == c.running
    ensures r.2.Aborted? ==> r.0.commands == {} && r.0.ready == c.ready
    ensures r.2.Aborted? ==> 0 < |r.1| <= |FileOps(kb)| && r.1 == FileOps(kb)[..|r.1|]
    ensures r.2.Aborted? ==> r.1[|r.1| - 1] == LoadFrom(r.2.file) && r.2.file in throwing
    ensures r.2.Aborted? ==> forall i :: 0 <= i < |r.1| - 1 ==> !Throws(r.1[i], throwing)
  {
    var ops := FileOps(kb);
    match FirstThrow(ops, throwing)
    case None => (Input(c, kb).0, ops, Completed)
    case Some(k) =>
      var running := if kb(KeyQ) == Pressed then false else c.running;
      (Controller(running, c.ready, {}), ops[..k + 1], Aborted(ops[k].name))
  }

  /** With X held and `state1` corrupt, the call emits nothing, even the
      speed tier, and never reaches the `state2` keys. */
  lemma CorruptLoadDropsCommands(c: Controller, kb: Keyboard)
    requires kb(KeyX) == Pressed
    ensures var r := InputCall(c, kb, {"state1"});
            && r.2 == Aborted("state1")
            && r.0.commands == {} && r.0.ready == c.ready
            && SaveTo("state2") !in r.1 && LoadFrom("state2") !in r.1
  {
  }

  // ---------------------------------------------------------------------
  // Sequences of calls

  const AllCommands: set<Command> :=
    {Forward, Backward, Left, Right, Jump, Remove, Add, Speed1, Speed01, Speed0025, StartDebug, EndDebug}

  /** Whether one call emits `x`, command by command. */
  predicate Emits(c: Controller, kb: Keyboard, x: Command) {
    match x
    case Speed1 => kb(LeftShift) == Pressed
    case Speed01 => kb(LeftShift) == Released
    case Speed0025 => kb(LeftControl) == Pressed
    case _ => kb(KeyOf(x)) == Pressed && (IsSinglePress(x) ==> x in c.ready)
  }

  /** The single-press commands whose key is up. */
  function Armed(kb: Keyboard): set<Command> {
    set s | s in SinglePress && kb(KeyOf(s)) == Released
  }

  /** The controller after one call, in closed form: stopped once Q is
      down, each single-press command armed exactly when its key is up,
      and the commands the table of `Emits` gives. */
  function Step(c: Controller, kb: Keyboard): Controller {
    Controller(
      c.running && kb(KeyQ) == Released,
      (c.ready - SinglePress) + Armed(kb),
      set x | x in AllCommands && Emits(c, kb, x))
  }

  /** `Input` and `Step` agree on each command's lock. */
  lemma ReadyAt(c: Controller, kb: Keyboard, x: Command)
    ensures x in Input(c, kb).0.ready <==> x in Step(c, kb).ready
  {
    StepReady(c, kb, Input(c, kb).0.ready, x);
  }

  /** A lock table that arms each single-press command exactly when its
      key is up and keeps the other entries is the one `Step` gives. */
  lemma StepReady(c: Controller, kb: Keyboard, ready: set<Command>, x: Command)
    requires IsSinglePress(x) ==> (x in ready <==> kb(KeyOf(x)) == Released)
    requires !IsSinglePress(x) ==> (x in ready <==> x in c.ready)
    ensures x in ready <==> x in Step(c, kb).ready
  {
    if IsSinglePress(x) {
      assert x in SinglePress;
      assert x in Armed(kb) <==> kb(KeyOf(x)) == Released;
    } else {
      assert x !in SinglePress;
      assert x !in Armed(kb);
    }
  }

  /** `Input` and `Step` agree on whether each command is issued. */
  lemma CommandAt(c: Controller, kb: Keyboard, x: Command)
    ensures x in Input(c, kb).0.commands <==> x in Step(c, kb).commands
  {
    var r := Input(c, kb).0;
    assert x in AllCommands;
    assert x in Step(c, kb).commands <==> Emits(c, kb, x);
    if IsSinglePress(x) {
      assert x in r.commands <==> x in c.ready && kb(KeyOf(x)) == Pressed;
    } else if IsMovement(x) {
      assert x in r.commands <==> kb(KeyOf(x)) == Pressed;
    }
  }

  lemma InputReady(c: Controller, kb: Keyboard)
    ensures Input(c, kb).0.ready == Step(c, kb).ready
  {
    forall x ensures x in Input(c, kb).0.ready <==> x in Step(c, kb).ready {
      ReadyAt(c, kb, x);
    }
  }

  lemma InputCommands(c: Controller, kb: Keyboard)
    ensures Input(c, kb).0.commands == Step(c, kb).commands
  {
    forall x ensures x in Input(c, kb).0.commands <==> x in Step(c, kb).commands {
      CommandAt(c, kb, x);
    }
  }

  /** `Input` leaves the controller `Step` describes. */
  lemma InputIsStep(c: Controller, kb: Keyboard)
    ensures Input(c, kb).0 == Step(c, kb)
  {
    InputReady(c, kb);
    InputCommands(c, kb);
    if kb(KeyQ) == Released {
    } else {
      assert kb(KeyQ) == Pressed;
    }
  }

  /** The controller after each of a sequence of `Input` calls. */
  function Run(c: Controller, kbs: seq<Keyboard>): (cs: seq<Controller>)
    ensures |cs| == |kbs|
    decreases |kbs|
  {
    if |kbs| == 0 then []
    else
      var next := Step(c, kbs[0]);
      [next] + Run(next, kbs[1..])
  }

  /** The controller call `k` starts from. */
  function Before(c: Controller, cs: seq<Controller>, k: nat): Controller
    requires k <= |cs|
  {
    if k == 0 then c else cs[k - 1]
  }

  /** Each state of a run is the step from the one before. */
  lemma {:induction false} RunStep(c: Controller, kbs: seq<Keyboard>, k: nat)
    requires k < |kbs|
    ensures Run(c, kbs)[k] == Step(Before(c, Run(c, kbs), k), kbs[k])
    decreases |kbs|
  {
    var next := Step(c, kbs[0]);
    var rest := Run(next, kbs[1..]);
    assert Run(c, kbs) == [next] + rest;
    if k > 0 {
      assert kbs[1..][k - 1] == kbs[k];
      RunStep(next, kbs[1..], k - 1);
    }
  }

  /** After each call a single-press command is ready exactly when its
      key was up; it is emitted only with its key down and only when the
      call started with it ready. */
  lemma RunCall(c: Controller, kbs: seq<Keyboard>, s: Command, k: nat)
    requires IsSinglePress(s) && k < |kbs|
    ensures s in Run(c, kbs)[k].ready <==> kbs[k](KeyOf(s)) == Released
    ensures s in Run(c, kbs)[k].commands ==> kbs[k](KeyOf(s)) == Pressed && s in Before(c, Run(c, kbs), k).ready
  {
    RunStep(c, kbs, k);
    assert s in SinglePress;
  }

  /** Between two emissions of a single-press command its key was seen
      released, on the call just before the second emission. */
  lemma {:induction false} ReleaseBetweenEmissions(c: Controller, kbs: seq<Keyboard>, s: Command, i: nat, j: nat)
    requires IsSinglePress(s) && i < j < |kbs|
    requires s in Run(c, kbs)[i].commands && s in Run(c, kbs)[j].commands
    ensures i < j - 1 && kbs[j - 1](KeyOf(s)) == Released
  {
    var p: nat := j - 1;
    RunCall(c, kbs, s, i);
    RunCall(c, kbs, s, j);
    RunCall(c, kbs, s, p);
  }

  /** A key held down across a stretch of calls emits its single-press
      command at most once in that stretch. */
  lemma HeldKeyFiresOnce(c: Controller, kbs: seq<Keyboard>, s: Command, i: nat, j: nat)
    requires IsSinglePress(s) && i < j < |kbs|
    requires forall l :: i <= l <= j ==> kbs[l](KeyOf(s)) == Pressed
    ensures !(s in Run(c, kbs)[i].commands && s in Run(c, kbs)[j].commands)
  {
    if s in Run(c, kbs)[i].commands && s in Run(c, kbs)[j].commands {
      ReleaseBetweenEmissions(c, kbs, s, i, j);
    }
  }

  /** Nothing sets `isRunning` back to `true`: once a state is stopped,
      every later one is. */
  lemma {:induction false} StopsForGood(c: Controller, kbs: seq<Keyboard>, i: nat, j: nat)
    requires i <= j < |kbs|
    requires !Run(c, kbs)[i].running
    ensures !Run(c, kbs)[j].running
    decreases j - i
  {
    if i < j {
      var next: nat := i + 1;
      RunStep(c, kbs, next);
      StopsForGood(c, kbs, next, j);
    }
  }

  /** Pressing Q stops the controller for every later call. */
  lemma QuitIsFinal(c: Controller, kbs: seq<Keyboard>, i: nat, j: nat)
    requires i <= j < |kbs| && kbs[i](KeyQ) == Pressed
    ensures !Run(c, kbs)[j].running
  {
    RunStep(c, kbs, i);
    StopsForGood(c, kbs, i, j);
  }
}
