/** Process identity and pidfd pinning, against a kernel that recycles pids and reboots. */
module ProcIdentity {
  import opened Json
  import opened Text

  // ----- /proc/<pid>/stat -----

  /** `str.rfind`, of one character. */
  function LastIndex(s: string, c: char): (k: int)
    ensures -1 <= k < |s|
    ensures k >= 0 ==> s[k] == c
    ensures forall j :: k < j < |s| ==> s[j] != c
  {
    if s == "" then -1
    else if s[|s| - 1] == c then |s| - 1
    else LastIndex(s[..|s| - 1], c)
  }

  const STARTTIME_INDEX := 22 - 3

  /** `process_start_ticks` on the text of the stat file; no text is a process that is gone. */
  function StartTicks(stat: Option<string>): Option<nat> {
    if stat.None? then None
    else
      var close := LastIndex(stat.value, ')');
      if close < 0 then None
      else
        var fields := Split(stat.value[close + 1..]);
        if |fields| <= STARTTIME_INDEX then None
        else
          var ticks := PyInt(fields[STARTTIME_INDEX]);
          if ticks.None? || ticks.value < 0 then None else Some(ticks.value)
  }

  /** The line the kernel prints: the comm is whatever the process called itself. */
  function StatLine(pid: nat, comm: string, fields: seq<string>): string {
    Decimal(pid) + " (" + comm + ")" + Spaced(fields) + "\n"
  }

  predicate KernelFields(fields: seq<string>, ticks: nat) {
    && |fields| > STARTTIME_INDEX && fields[STARTTIME_INDEX] == Decimal(ticks)
    && forall k :: 0 <= k < |fields| ==> Word(fields[k]) && ')' !in fields[k]
  }

  lemma {:induction false} SpacedHasNoClose(fields: seq<string>)
    requires forall k :: 0 <= k < |fields| ==> ')' !in fields[k]
    ensures ')' !in Spaced(fields)
  {
    if fields != [] {
      SpacedHasNoClose(fields[1..]);
    }
  }

  lemma {:induction false} LastIndexOf(before: string, c: char, after: string)
    requires c !in after
    ensures LastIndex(before + [c] + after, c) == |before|
    decreases |after|
  {
    var s := before + [c] + after;
    if after == "" {
      assert s[|s| - 1] == c;
    } else {
      var rest := after[..|after| - 1];
      assert s[|s| - 1] == after[|after| - 1];
      assert s[..|s| - 1] == before + [c] + rest;
      LastIndexOf(before, c, rest);
    }
  }

  /** Field 22 comes back whatever spaces, parentheses or newlines the comm holds. */
  lemma StartTicksRecovered(pid: nat, comm: string, fields: seq<string>, ticks: nat)
    requires KernelFields(fields, ticks)
    ensures StartTicks(Some(StatLine(pid, comm, fields))) == Some(ticks)
  {
    var before, after := Decimal(pid) + " (" + comm, Spaced(fields) + "\n";
    assert StatLine(pid, comm, fields) == before + [')'] + after;
    SpacedHasNoClose(fields);
    LastIndexOf(before, ')', after);
    assert (before + [')'] + after)[|before| + 1..] == after;
    SplitSpaced(fields, "\n");
    assert Split("\n") == Split("\n"[1..]) == [];
    DecimalReads(ticks);
  }

  /** In any text at all: the twentieth word after the last parenthesis, if it spells a natural number. */
  lemma TicksAreTheTwentiethWord(before: string, after: string)
    requires ')' !in after
    ensures var words, ticks := Split(after), StartTicks(Some(before + ")" + after));
            && (|words| < 20 ==> ticks.None?)
            && (|words| >= 20 ==>
                  ticks == (match PyInt(words[19]) case Some(n) => if n >= 0 then Some(n) else None case None => None))
  {
    LastIndexOf(before, ')', after);
    assert before + ")" + after == before + [')'] + after;
    assert (before + [')'] + after)[|before| + 1..] == after;
  }

  lemma NoParenthesisNoTicks(text: string)
    requires ')' !in text
    ensures StartTicks(Some(text)).None? && StartTicks(None).None?
  {
  }

  // ----- the verdict -----

  datatype Verdict = Proven | Mismatch | Unrecorded

  function RecordedTicks(payload: Value): Option<nat> {
    var raw := Get(payload, "pid_start_ticks");
    if raw.Int? && raw.number >= 0 then Some(raw.number) else None
  }

  function NonBlank(s: string): Option<string> {
    if Strip(s) == "" then None else Some(Strip(s))
  }

  function RecordedBoot(payload: Value): Option<string> {
    var raw := Get(payload, "boot_id");
    if raw.Str? then NonBlank(raw.text) else None
  }

  function BootId(file: Option<string>): Option<string> {
    if file.None? then None else NonBlank(file.value)
  }

  /** `identity_verdict`: the recorded identity against the boot id file and the pid's stat file. */
  function IdentityVerdict(payload: Value, boot: Option<string>, stat: Option<string>): Verdict {
    if RecordedBoot(payload).None? || RecordedTicks(payload).None? || BootId(boot).None? then Unrecorded
    else if BootId(boot) != RecordedBoot(payload) then Mismatch
    else if StartTicks(stat).None? then Unrecorded
    else if StartTicks(stat) == RecordedTicks(payload) then Proven
    else Mismatch
  }

  /** Evidence enough to judge by: a boot text that is not blank and a start tick that is a natural number. */
  predicate Complete(payload: Value) {
    var boot, ticks := Get(payload, "boot_id"), Get(payload, "pid_start_ticks");
    boot.Str? && !Blank(boot.text) && ticks.Int? && ticks.number >= 0
  }

  predicate BootIsKnown(boot: Option<string>) { boot.Some? && !Blank(boot.value) }

  /** Half an identity, or a boot that cannot be read, is evidence of nothing: never of a stale record. */
  lemma NoEvidenceIsNoMismatch(payload: Value, boot: Option<string>, stat: Option<string>)
    ensures !Complete(payload) || !BootIsKnown(boot) ==> IdentityVerdict(payload, boot, stat) == Unrecorded
  {
    if Get(payload, "boot_id").Str? {
      StripOfBlank(Get(payload, "boot_id").text);
    }
    if boot.Some? {
      StripOfBlank(boot.value);
    }
  }

  /** With evidence on both sides, the three answers: another boot, or another start tick under the pid, is a
      mismatch; the same of both is proof; nobody to ask is neither. */
  lemma EvidenceDecides(payload: Value, boot: Option<string>, stat: Option<string>)
    requires Complete(payload) && BootIsKnown(boot)
    ensures var verdict := IdentityVerdict(payload, boot, stat);
            var sameBoot := Strip(boot.value) == Strip(Get(payload, "boot_id").text);
            var shown, ticks := StartTicks(stat), Get(payload, "pid_start_ticks").number;
            && (verdict == Proven <==> sameBoot && shown == Some(ticks))
            && (verdict == Unrecorded <==> sameBoot && shown.None?)
            && (verdict == Mismatch <==> !sameBoot || (shown.Some? && shown.value != ticks))
  {
    StripOfBlank(Get(payload, "boot_id").text);
    StripOfBlank(boot.value);
  }

  // ----- the world: processes, registries, and one client with a pin -----

  /** A process has an identity of its own; its pid and start ticks are only what the kernel shows. */
  datatype Proc = Proc(id: nat, ticks: nat, zombie: bool)

  /** A registry file, and who wrote it. */
  datatype Record = Record(payload: Value, pid: nat, writer: nat)

  datatype Pin = Pin(pid: nat, id: nat)

  datatype Client = Client(record: Option<Record>, pin: Option<Pin>, verdict: Option<Verdict>)

  datatype Delivery = Delivery(target: nat, record: Record)

  datatype World = World(
    boot: nat,
    procs: map<nat, Proc>,
    born: map<(nat, nat, nat), nat>,   // (boot, pid, start ticks) -> the process that had them
    next: nat,
    registry: set<Record>,
    client: Client,
    delivered: seq<Delivery>)

  datatype Step =
    | Fork(pid: nat, ticks: nat)
    | Exit(pid: nat)
    | Reap(pid: nat)
    | Reboot
    | Register(pid: nat)
    | ReadRegistry(record: Record)
    | OpenPin
    | Judge(comm: string, fields: seq<string>)
    | Send
    | ClosePin

  const FRESH := Client(None, None, None)

  function Start(): World { World(0, map[], map[], 0, {}, FRESH, []) }

  /** What `identity_payload` records for a process of this boot. */
  function Payload(boot: nat, ticks: nat): Value {
    Obj(map["pid_start_ticks" := Int(ticks), "boot_id" := Str(Decimal(boot))])
  }

  predicate Holds(w: World, id: nat, zombieToo: bool) {
    exists pid :: pid in w.procs && w.procs[pid].id == id && (zombieToo || !w.procs[pid].zombie)
  }

  /** When the kernel or the client can take the step. The kernel may hand a pid out again as soon as its
      last holder is reaped, pinned or not; it never gives one boot the same (pid, start ticks) twice. The
      client pins the pid its record names, and may read that pid's registry again under the pin. */
  predicate Enabled(w: World, step: Step) {
    match step
    case Fork(pid, ticks) => pid !in w.procs && (w.boot, pid, ticks) !in w.born
    case Exit(pid) => pid in w.procs && !w.procs[pid].zombie
    case Reap(pid) => pid in w.procs && w.procs[pid].zombie
    case Reboot => true
    case Register(pid) => pid in w.procs && !w.procs[pid].zombie
    case ReadRegistry(record) =>
      record in w.registry && (w.client.pin.Some? ==> record.pid == w.client.pin.value.pid)
    case OpenPin => w.client.record.Some? && w.client.pin.None? && w.client.record.value.pid in w.procs
    case Judge(comm, fields) =>
      && w.client.record.Some? && w.client.pin.Some?
      && (w.client.pin.value.pid in w.procs ==> KernelFields(fields, w.procs[w.client.pin.value.pid].ticks))
    case Send => w.client.record.Some? && w.client.pin.Some? && w.client.verdict == Some(Proven)
    case ClosePin => w.client.pin.Some?
  }

  /** The stat text behind the pinned pid number: of whatever process has that number now. */
  function StatOf(w: World, pid: nat, comm: string, fields: seq<string>): Option<string> {
    if pid in w.procs then Some(StatLine(pid, comm, fields)) else None
  }

  /** A pidfd addresses the pinned process itself: once it has exited nothing is delivered. `record` is what the
      sender went by. */
  function Deliver(w: World, id: nat, record: Record): World {
    if Holds(w, id, false) then w.(delivered := w.delivered + [Delivery(id, record)]) else w
  }

  function Apply(w: World, step: Step): World
    requires Enabled(w, step)
  {
    match step
    case Fork(pid, ticks) =>
      w.(procs := w.procs[pid := Proc(w.next, ticks, false)],
         born := w.born[(w.boot, pid, ticks) := w.next], next := w.next + 1)
    case Exit(pid) => w.(procs := w.procs[pid := w.procs[pid].(zombie := true)])
    case Reap(pid) => w.(procs := w.procs - {pid})
    case Reboot => w.(boot := w.boot + 1, procs := map[], client := FRESH)
    case Register(pid) =>
      w.(registry := w.registry + {Record(Payload(w.boot, w.procs[pid].ticks), pid, w.procs[pid].id)})
    case ReadRegistry(record) => w.(client := w.client.(record := Some(record), verdict := None))
    case OpenPin =>
      var pid := w.client.record.value.pid;
      w.(client := w.client.(pin := Some(Pin(pid, w.procs[pid].id)), verdict := None))
    case Judge(comm, fields) =>
      w.(client := w.client.(verdict := Some(IdentityVerdict(
           w.client.record.value.payload, Some(Decimal(w.boot) + "\n"), StatOf(w, w.client.pin.value.pid, comm, fields)))))
    case Send =>
      Deliver(w, w.client.pin.value.id, w.client.record.value)
    case ClosePin => w.(client := w.client.(pin := None, verdict := None))
  }

  function Run(w: World, steps: seq<Step>): World
    decreases |steps|
  {
    if steps == [] then w else Run(if Enabled(w, steps[0]) then Apply(w, steps[0]) else w, steps[1..])
  }

  /** No record survives a reboot: whoever has its number afterwards, it is a mismatch. */
  lemma RebootForgets(w: World, record: Record, comm: string, fields: seq<string>, pid: nat)
    requires Inv(w) && Honest(w, record)
    requires var next := Apply(w, Reboot); pid in next.procs ==> KernelFields(fields, next.procs[pid].ticks)
    ensures var next := Apply(w, Reboot);
            IdentityVerdict(record.payload, Some(Decimal(next.boot) + "\n"), StatOf(next, pid, comm, fields)) == Mismatch
  {
    var boot: nat, ticks: nat :|
      (boot, record.pid, ticks) in w.born && w.born[(boot, record.pid, ticks)] == record.writer
      && record.payload == Payload(boot, ticks);
    VerdictReads(Apply(w, Reboot), boot, ticks, pid, comm, fields);
  }

  /** What a pin is for: a process can exit, be reaped, and its number be given to a newcomer, while somebody holds a
      pin of the one that is gone. */
  lemma NumbersComeBack(w: World, pid: nat, ticks: nat)
    requires w.client.record.Some? && w.client.record.value.pid == pid && w.client.pin.None?
    requires pid in w.procs && !w.procs[pid].zombie && w.procs[pid].id < w.next && (w.boot, pid, ticks) !in w.born
    ensures var after := Run(w, [OpenPin, Exit(pid), Reap(pid), Fork(pid, ticks)]);
            && after.client.pin == Some(Pin(pid, w.procs[pid].id))
            && pid in after.procs && after.procs[pid].ticks == ticks && after.procs[pid].id != w.procs[pid].id
            && !after.procs[pid].zombie
  {
    var steps := [OpenPin, Exit(pid), Reap(pid), Fork(pid, ticks)];
    var pinned := Apply(w, OpenPin);
    var exited := Apply(pinned, Exit(pid));
    var reaped := Apply(exited, Reap(pid));
    var forked := Apply(reaped, Fork(pid, ticks));
    assert steps[1..] == [Exit(pid), Reap(pid), Fork(pid, ticks)];
    assert steps[1..][1..] == [Reap(pid), Fork(pid, ticks)];
    assert [Reap(pid), Fork(pid, ticks)][1..] == [Fork(pid, ticks)];
    assert Run(reaped, [Fork(pid, ticks)]) == Run(forked, []) == forked;
    assert Run(exited, [Reap(pid), Fork(pid, ticks)]) == forked;
    assert Run(pinned, steps[1..]) == forked;
  }

  // ----- what every step keeps -----

  ghost predicate Inv(w: World) {
    && (forall pid :: pid in w.procs ==>
          (w.boot, pid, w.procs[pid].ticks) in w.born && w.born[(w.boot, pid, w.procs[pid].ticks)] == w.procs[pid].id)
    && (forall key: (nat, nat, nat) :: key in w.born ==> w.born[key] < w.next && key.0 <= w.boot)
    && (forall key: (nat, nat, nat), other: (nat, nat, nat) :: key in w.born && other in w.born && w.born[key] == w.born[other] ==> key == other)
    && (forall record :: record in w.registry ==> Honest(w, record))
    && (w.client.record.Some? ==> Honest(w, w.client.record.value))
    && (w.client.pin.Some? ==>
          && Pinned(w, w.client.pin.value)
          && w.client.record.Some? && w.client.record.value.pid == w.client.pin.value.pid)
    && (w.client.verdict == Some(Proven) ==>
          && w.client.record.Some? && w.client.pin.Some?
          && (w.client.pin.value.id == w.client.record.value.writer || !Holds(w, w.client.pin.value.id, true)))
    && (forall k :: 0 <= k < |w.delivered| ==> w.delivered[k].target == w.delivered[k].record.writer)
  }

  /** The record says what its writer was, in some boot. */
  ghost predicate Honest(w: World, record: Record) {
    exists boot: nat, ticks: nat ::
      (boot, record.pid, ticks) in w.born && w.born[(boot, record.pid, ticks)] == record.writer
      && record.payload == Payload(boot, ticks)
  }

  /** The pinned process had the pinned number in this boot. */
  ghost predicate Pinned(w: World, pin: Pin) {
    exists ticks: nat :: (w.boot, pin.pid, ticks) in w.born && w.born[(w.boot, pin.pid, ticks)] == pin.id
  }

  lemma StripKeepsWord(s: string, end: string)
    requires Word(s) && (end == "" || end == "\n")
    ensures Strip(s + end) == s
  {
    assert LStrip(s + end) == s + end;
    if end == "\n" {
      assert (s + end)[..|s + end| - 1] == s;
    } else {
      assert s + end == s;
    }
    assert RStrip(s) == s;
  }

  lemma PayloadReads(boot: nat, ticks: nat)
    ensures RecordedTicks(Payload(boot, ticks)) == Some(ticks)
    ensures RecordedBoot(Payload(boot, ticks)) == Some(Decimal(boot))
  {
    DecimalIsWord(boot);
    StripKeepsWord(Decimal(boot), "");
    assert Decimal(boot) + "" == Decimal(boot);
  }

  /** In the model's world the verdict is `Proven` exactly when the record is of this boot and the number now shows the
      recorded ticks; `Mismatch` exactly when it is of another boot or the number shows others; and `Unrecorded` exactly
      when the boot is this one and nobody has the number. */
  lemma VerdictReads(w: World, boot: nat, ticks: nat, pid: nat, comm: string, fields: seq<string>)
    requires pid in w.procs ==> KernelFields(fields, w.procs[pid].ticks)
    ensures IdentityVerdict(Payload(boot, ticks), Some(Decimal(w.boot) + "\n"), StatOf(w, pid, comm, fields)) == Proven
            <==> boot == w.boot && pid in w.procs && w.procs[pid].ticks == ticks
    ensures IdentityVerdict(Payload(boot, ticks), Some(Decimal(w.boot) + "\n"), StatOf(w, pid, comm, fields)) == Mismatch
            <==> boot != w.boot || (pid in w.procs && w.procs[pid].ticks != ticks)
    ensures IdentityVerdict(Payload(boot, ticks), Some(Decimal(w.boot) + "\n"), StatOf(w, pid, comm, fields)) == Unrecorded
            <==> boot == w.boot && pid !in w.procs
  {
    PayloadReads(boot, ticks);
    DecimalIsWord(w.boot);
    StripKeepsWord(Decimal(w.boot), "\n");
    DecimalReads(boot);
    DecimalReads(w.boot);
    if pid in w.procs {
      StartTicksRecovered(pid, comm, fields, w.procs[pid].ticks);
    }
  }

  lemma BornGrows(w: World, next: World, record: Record, pin: Pin)
    requires forall key: (nat, nat, nat) :: key in w.born ==> key in next.born && next.born[key] == w.born[key]
    ensures Honest(w, record) ==> Honest(next, record)
    ensures Pinned(w, pin) && next.boot == w.boot ==> Pinned(next, pin)
  {
  }

  predicate KernelStep(step: Step) {
    step.Fork? || step.Exit? || step.Reap? || step.Reboot? || step.Register?
  }

  /** A kernel step may add to what was ever born and registered, and moves no one else's identity. */
  lemma KernelStepKeepsInv(w: World, step: Step)
    requires Inv(w) && Enabled(w, step) && KernelStep(step)
    ensures Inv(Apply(w, step))
  {
    var next := Apply(w, step);
    ProcsKeptBorn(w, step);
    forall record | record in next.registry
      ensures Honest(next, record)
    {
      if record in w.registry {
        BornGrows(w, next, record, Pin(0, 0));
      }
    }
    if w.client.record.Some? {
      BornGrows(w, next, w.client.record.value, Pin(0, 0));
    }
    if w.client.pin.Some? && !step.Reboot? {
      BornGrows(w, next, Record(Null, 0, 0), w.client.pin.value);
      if next.client.verdict == Some(Proven) {
        GoneStaysGone(w, step, w.client.pin.value);
      }
    }
  }

  lemma ProcsKeptBorn(w: World, step: Step)
    requires Inv(w) && Enabled(w, step) && KernelStep(step)
    ensures var next := Apply(w, step);
            && (forall key: (nat, nat, nat) :: key in w.born ==> key in next.born && next.born[key] == w.born[key])
            && (forall key: (nat, nat, nat) :: key in next.born ==> next.born[key] < next.next && key.0 <= next.boot)
            && (forall key: (nat, nat, nat), other: (nat, nat, nat) ::
                  key in next.born && other in next.born && next.born[key] == next.born[other] ==> key == other)
            && (forall pid :: pid in next.procs ==>
                  (next.boot, pid, next.procs[pid].ticks) in next.born
                  && next.born[(next.boot, pid, next.procs[pid].ticks)] == next.procs[pid].id)
  {
    if step.Fork? {
      ForkIsANewBirth(w, step);
    } else {
      NoBirthOtherwise(w, step);
    }
  }

  lemma ForkIsANewBirth(w: World, step: Step)
    requires Enabled(w, step) && step.Fork?
    ensures var next, key := Apply(w, step), (w.boot, step.pid, step.ticks);
            && next.boot == w.boot && next.next == w.next + 1
            && key !in w.born && next.born == w.born[key := w.next]
            && next.procs == w.procs[step.pid := Proc(w.next, step.ticks, false)]
  {
  }

  lemma NoBirthOtherwise(w: World, step: Step)
    requires Enabled(w, step) && KernelStep(step) && !step.Fork?
    ensures var next := Apply(w, step);
            && next.born == w.born && next.next == w.next && next.boot >= w.boot
            && (next.boot == w.boot || next.procs == map[])
            && (forall pid :: pid in next.procs ==>
                  pid in w.procs && next.procs[pid].ticks == w.procs[pid].ticks && next.procs[pid].id == w.procs[pid].id)
  {
  }

  /** A pinned process that is gone never comes back: a number is reused, a process is not. */
  lemma GoneStaysGone(w: World, step: Step, pin: Pin)
    requires Inv(w) && Enabled(w, step) && Pinned(w, pin) && KernelStep(step)
    ensures Holds(Apply(w, step), pin.id, true) ==> Holds(w, pin.id, true)
  {
    var next := Apply(w, step);
    if Holds(next, pin.id, true) {
      var pid :| pid in next.procs && next.procs[pid].id == pin.id;
      assert pid in w.procs && w.procs[pid].id == pin.id;
    }
  }

  /** A client step touches nothing but the client and the log. */
  lemma ClientFrame(w: World, next: World)
    requires Inv(w)
    requires next == w.(client := next.client, delivered := next.delivered)
    requires next.client.record.Some? ==> Honest(w, next.client.record.value)
    requires next.client.pin.Some? ==> && Pinned(w, next.client.pin.value)
                                       && next.client.record.Some? && next.client.record.value.pid == next.client.pin.value.pid
    requires next.client.verdict == Some(Proven) ==>
               && next.client.record.Some? && next.client.pin.Some?
               && (next.client.pin.value.id == next.client.record.value.writer || !Holds(w, next.client.pin.value.id, true))
    requires forall k :: 0 <= k < |next.delivered| ==> next.delivered[k].target == next.delivered[k].record.writer
    ensures Inv(next)
  {
    forall record | Honest(w, record)
      ensures Honest(next, record)
    {
      BornGrows(w, next, record, Pin(0, 0));
    }
    if next.client.pin.Some? {
      BornGrows(w, next, Record(Null, 0, 0), next.client.pin.value);
      assert Holds(next, next.client.pin.value.id, true) ==> Holds(w, next.client.pin.value.id, true);
    }
  }

  lemma ClientStepKeepsInv(w: World, step: Step)
    requires Inv(w) && Enabled(w, step) && !KernelStep(step)
    ensures Inv(Apply(w, step))
  {
    match step {
      case OpenPin =>
        var pid := w.client.record.value.pid;
        assert (w.boot, pid, w.procs[pid].ticks) in w.born;
      case Judge(comm, fields) =>
        JudgeIsSound(w, comm, fields);
      case Send =>
        if Holds(w, w.client.pin.value.id, false) {
          assert Holds(w, w.client.pin.value.id, true);
        }
      case _ =>
    }
    ClientFrame(w, Apply(w, step));
  }

  /** A proof of identity is about the pinned process, unless that process is already gone. */
  lemma JudgeIsSound(w: World, comm: string, fields: seq<string>)
    requires Inv(w) && Enabled(w, Judge(comm, fields))
    ensures Apply(w, Judge(comm, fields)).client.verdict == Some(Proven) ==>
              w.client.pin.value.id == w.client.record.value.writer || !Holds(w, w.client.pin.value.id, true)
  {
    var record, pin := w.client.record.value, w.client.pin.value;
    var boot: nat, ticks: nat :| (boot, record.pid, ticks) in w.born && w.born[(boot, record.pid, ticks)] == record.writer
                                 && record.payload == Payload(boot, ticks);
    VerdictReads(w, boot, ticks, pin.pid, comm, fields);
    if Apply(w, Judge(comm, fields)).client.verdict == Some(Proven) && Holds(w, pin.id, true) {
      var pid :| pid in w.procs && w.procs[pid].id == pin.id;
      var had: nat :| (w.boot, pin.pid, had) in w.born && w.born[(w.boot, pin.pid, had)] == pin.id;
      assert (w.boot, pid, w.procs[pid].ticks) == (w.boot, pin.pid, had);
    }
  }

  /** A mismatch on a record some process wrote is positive evidence: that process no longer has the number. */
  lemma MismatchIsSound(w: World, record: Record, comm: string, fields: seq<string>)
    requires Inv(w) && record in w.registry
    requires record.pid in w.procs ==> KernelFields(fields, w.procs[record.pid].ticks)
    requires IdentityVerdict(record.payload, Some(Decimal(w.boot) + "\n"), StatOf(w, record.pid, comm, fields)) == Mismatch
    ensures record.pid in w.procs ==> w.procs[record.pid].id != record.writer
  {
    assert Honest(w, record);
    var boot: nat, ticks: nat :| (boot, record.pid, ticks) in w.born && w.born[(boot, record.pid, ticks)] == record.writer
                                 && record.payload == Payload(boot, ticks);
    VerdictReads(w, boot, ticks, record.pid, comm, fields);
  }

  lemma {:induction false} RunKeepsInv(w: World, steps: seq<Step>)
    requires Inv(w)
    ensures Inv(Run(w, steps))
    decreases |steps|
  {
    if steps != [] {
      if Enabled(w, steps[0]) {
        if KernelStep(steps[0]) {
          KernelStepKeepsInv(w, steps[0]);
        } else {
          ClientStepKeepsInv(w, steps[0]);
        }
        RunKeepsInv(Apply(w, steps[0]), steps[1..]);
      } else {
        RunKeepsInv(w, steps[1..]);
      }
    }
  }

  /** In every interleaving of the kernel and the client, a signal that is delivered reaches the process that
      wrote the record it was judged by. */
  lemma SignalsReachTheWriter(steps: seq<Step>)
    ensures forall k :: 0 <= k < |Run(Start(), steps).delivered| ==>
              Run(Start(), steps).delivered[k].target == Run(Start(), steps).delivered[k].record.writer
  {
    RunKeepsInv(Start(), steps);
  }

  /** And it is not refused to the right process: a writer of this boot, pinned while it runs, is proven and
      receives the signal. */
  lemma LiveWriterIsProvenAndSignalled(w: World, comm: string, fields: seq<string>, ticks: nat)
    requires Enabled(w, Judge(comm, fields)) && w.client.pin.value.pid in w.procs
    requires w.procs[w.client.pin.value.pid] == Proc(w.client.pin.value.id, ticks, false)
    requires w.client.record.value.payload == Payload(w.boot, ticks)
    ensures var judged := Apply(w, Judge(comm, fields));
            Enabled(judged, Send) && Apply(judged, Send).delivered ==
                                     w.delivered + [Delivery(w.client.pin.value.id, w.client.record.value)]
  {
    VerdictReads(w, w.boot, ticks, w.client.pin.value.pid, comm, fields);
    assert Holds(w, w.client.pin.value.id, false);
  }

  /** A record must be judged against a pin of its own pid: another pid's record that shows the same start
      ticks would be proven of the wrong process. */
  lemma ForeignRecordWouldBeProven(w: World, record: Record, ticks: nat, comm: string, fields: seq<string>)
    requires w.client.pin.Some? && w.client.pin.value.pid in w.procs
    requires w.procs[w.client.pin.value.pid].ticks == ticks && KernelFields(fields, ticks)
    requires record.payload == Payload(w.boot, ticks) && record.pid != w.client.pin.value.pid
    ensures IdentityVerdict(record.payload, Some(Decimal(w.boot) + "\n"),
                            StatOf(w, w.client.pin.value.pid, comm, fields)) == Proven
  {
    VerdictReads(w, w.boot, ticks, w.client.pin.value.pid, comm, fields);
  }

  // ----- the pin object -----

  datatype Fault = PinClosed | PinUnavailable

  /** `ProcessPin`: the pid, and a descriptor that is negative once closed. */
  class ProcessPin {
    const pid: nat
    const id: nat
    var fd: int

    constructor (pid: nat, id: nat, fd: nat)
      ensures this.pid == pid && this.id == id && this.fd == fd
    {
      this.pid, this.id, this.fd := pid, id, fd;
    }

    predicate Closed()
      reads this
    {
      fd < 0
    }

    /** Closing is idempotent; the descriptor to hand back to the kernel comes out exactly once. */
    method Close() returns (released: Option<nat>)
      modifies this
      ensures Closed()
      ensures released == if old(fd) >= 0 then Some(old(fd)) else None
    {
      var was := fd;
      fd := -1;
      released := if was >= 0 then Some(was) else None;
    }

    method GetVerdict(payload: Value, boot: Option<string>, stat: Option<string>) returns (r: Result<Verdict, Fault>)
      ensures r == if Closed() then Err(PinClosed) else Ok(IdentityVerdict(payload, boot, stat))
    {
      if Closed() {
        return Err(PinClosed);
      }
      r := Ok(IdentityVerdict(payload, boot, stat));
    }

    /** A send through an open pin asks no verdict; it goes to the process pinned and no other. */
    method SendSignal(w: World, record: Record) returns (r: Result<World, Fault>)
      ensures r == if Closed() then Err(PinClosed) else Ok(Deliver(w, id, record))
    {
      if Closed() {
        return Err(PinClosed);
      }
      r := Ok(Deliver(w, id, record));
    }
  }

  /** `pin_process`: no pidfd, or nobody behind the number, is a refusal; otherwise whoever holds it now. */
  method PinProcess(w: World, available: bool, pid: nat, fd: nat) returns (pin: ProcessPin?)
    ensures pin == null <==> !available || pid !in w.procs
    ensures pin != null ==> fresh(pin) && !pin.Closed() && pin.pid == pid && pid in w.procs && pin.id == w.procs[pid].id
  {
    if !available || pid !in w.procs {
      return null;
    }
    pin := new ProcessPin(pid, w.procs[pid].id, fd);
  }

  // ----- a teardown that pins once and signals through that pin -----

  /** What the kernel may do between two steps of one client. */
  predicate Meanwhile(steps: seq<Step>) {
    forall k :: 0 <= k < |steps| ==> KernelStep(steps[k]) && !steps[k].Reboot?
  }

  /** The kernel alone keeps the facts established, and leaves the client and what was delivered as they were. */
  lemma {:induction false} KernelKeeps(w: World, steps: seq<Step>)
    requires Inv(w) && Meanwhile(steps)
    ensures Inv(Run(w, steps))
    ensures Run(w, steps).client == w.client && Run(w, steps).delivered == w.delivered
    decreases |steps|
  {
    if steps != [] {
      assert Meanwhile(steps[1..]) by {
        assert forall k :: 0 <= k < |steps[1..]| ==> steps[1..][k] == steps[k + 1];
      }
      if Enabled(w, steps[0]) {
        KernelStepKeepsInv(w, steps[0]);
        KernelKeeps(Apply(w, steps[0]), steps[1..]);
      } else {
        KernelKeeps(w, steps[1..]);
      }
    }
  }

  /** How the stat file shows a process of these start ticks. */
  ghost predicate Shows(fields: nat -> seq<string>) {
    forall ticks: nat :: KernelFields(fields(ticks), ticks)
  }

  function TicksBehind(w: World, pid: nat): nat {
    if pid in w.procs then w.procs[pid].ticks else 0
  }

  /** Every signal delivered since `w` went to the writer of the record, on the strength of that record. */
  predicate OnlyToWriter(w: World, after: World, record: Record) {
    && w.delivered <= after.delivered
    && forall k :: |w.delivered| <= k < |after.delivered| ==> after.delivered[k] == Delivery(record.writer, record)
  }

  /** The client's own steps, one by one: what each does to the client, and that no other delivers. */
  lemma ReadStep(w: World, record: Record)
    requires Inv(w) && record in w.registry && w.client == FRESH
    ensures var next := Apply(w, ReadRegistry(record));
            Inv(next) && next.client == Client(Some(record), None, None) && next.delivered == w.delivered
  {
    ClientStepKeepsInv(w, ReadRegistry(record));
  }

  lemma PinStep(w: World, record: Record)
    requires Inv(w) && w.client == Client(Some(record), None, None) && record.pid in w.procs
    ensures var next, pin := Apply(w, OpenPin), Pin(record.pid, w.procs[record.pid].id);
            Inv(next) && next.client == Client(Some(record), Some(pin), None) && next.delivered == w.delivered
  {
    ClientStepKeepsInv(w, OpenPin);
  }

  lemma JudgeStep(w: World, record: Record, pin: Pin, comm: string, fields: nat -> seq<string>)
    requires Inv(w) && w.client == Client(Some(record), Some(pin), None) && pin.pid == record.pid && Shows(fields)
    ensures var shown := fields(TicksBehind(w, record.pid));
            && Enabled(w, Judge(comm, shown))
            && var next := Apply(w, Judge(comm, shown));
               && Inv(next) && next.delivered == w.delivered
               && next.client == Client(Some(record), Some(pin), Some(IdentityVerdict(
                    record.payload, Some(Decimal(w.boot) + "\n"), StatOf(w, record.pid, comm, shown))))
  {
    ClientStepKeepsInv(w, Judge(comm, fields(TicksBehind(w, record.pid))));
  }

  lemma SendStep(w: World, record: Record, pin: Pin)
    requires Inv(w) && w.client == Client(Some(record), Some(pin), Some(Proven))
    ensures var next := Deliver(w, pin.id, record);
            && Inv(next) && next.client == w.client
            && (next.delivered == w.delivered || next.delivered == w.delivered + [Delivery(record.writer, record)])
  {
    ClientStepKeepsInv(w, Send);
    var next := Apply(w, Send);
    if next.delivered != w.delivered {
      assert next.delivered[|w.delivered|].target == record.writer;
    }
  }

  /** The pin of a `BridgeProcessSignal`: taken on the record's pid and judged once, while processes come and go. */
  method PinAndJudge(w: World, record: Record, available: bool, fd: nat, comm: string, fields: nat -> seq<string>,
                     beforePin: seq<Step>, beforeJudging: seq<Step>)
    returns (after: World, pin: ProcessPin?, verdict: Verdict)
    requires Inv(w) && record in w.registry && w.client == FRESH && Shows(fields)
    requires Meanwhile(beforePin) && Meanwhile(beforeJudging)
    ensures Inv(after) && after.delivered == w.delivered
    ensures pin != null ==> fresh(pin) && !pin.Closed()
                            && after.client == Client(Some(record), Some(Pin(pin.pid, pin.id)), Some(verdict))
  {
    ReadStep(w, record);
    after := Apply(w, ReadRegistry(record));
    KernelKeeps(after, beforePin);
    after := Run(after, beforePin);
    verdict := Unrecorded;
    pin := PinProcess(after, available, record.pid, fd);
    if pin == null {
      return;
    }
    PinStep(after, record);
    after := Apply(after, OpenPin);
    KernelKeeps(after, beforeJudging);
    after := Run(after, beforeJudging);
    JudgeStep(after, record, Pin(pin.pid, pin.id), comm, fields);
    var shown := fields(TicksBehind(after, record.pid));
    var said := pin.GetVerdict(record.payload, Some(Decimal(after.boot) + "\n"), StatOf(after, record.pid, comm, shown));
    after, verdict := Apply(after, Judge(comm, shown)), said.value;
  }

  /** A process that has exited, reaped or not, receives nothing. */
  lemma TheExitedReceiveNothing(w: World, id: nat, record: Record)
    requires forall pid :: pid in w.procs && w.procs[pid].id == id ==> w.procs[pid].zombie
    ensures Deliver(w, id, record).delivered == w.delivered
  {
  }

  /** Each signal of an escalation goes through that same pin, with any wait before it. */
  method Escalate(w: World, pin: ProcessPin, record: Record, waits: seq<seq<Step>>) returns (after: World)
    requires Inv(w) && !pin.Closed() && w.client == Client(Some(record), Some(Pin(pin.pid, pin.id)), Some(Proven))
    requires forall k :: 0 <= k < |waits| ==> Meanwhile(waits[k])
    ensures Inv(after) && OnlyToWriter(w, after, record)
  {
    after := w;
    for k := 0 to |waits|
      invariant Inv(after) && OnlyToWriter(w, after, record) && after.client == w.client
    {
      KernelKeeps(after, waits[k]);
      after := Run(after, waits[k]);
      SendStep(after, record, Pin(pin.pid, pin.id));
      var sent := pin.SendSignal(after, record);
      after := sent.value;
    }
  }

  /** `BridgeProcessSignal` over a whole teardown: pin, judge once, signal through the pin only when that said
      "proven", close. Whatever processes come and go at every point in between, the signals reach the process that
      wrote the record or nobody, and the pin ends closed. */
  method SignalThroughPin(w: World, record: Record, available: bool, fd: nat, comm: string, fields: nat -> seq<string>,
                          beforePin: seq<Step>, beforeJudging: seq<Step>, waits: seq<seq<Step>>)
    returns (after: World, pin: ProcessPin?)
    requires Inv(w) && record in w.registry && w.client == FRESH && Shows(fields)
    requires Meanwhile(beforePin) && Meanwhile(beforeJudging)
    requires forall k :: 0 <= k < |waits| ==> Meanwhile(waits[k])
    ensures Inv(after) && OnlyToWriter(w, after, record)
    ensures pin == null ==> after.delivered == w.delivered
    ensures pin != null ==> fresh(pin) && pin.Closed()
  {
    var verdict;
    after, pin, verdict := PinAndJudge(w, record, available, fd, comm, fields, beforePin, beforeJudging);
    if pin != null {
      if verdict == Proven {
        after := Escalate(after, pin, record, waits);
      }
      var _ := pin.Close();
    }
  }
}
