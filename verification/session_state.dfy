/** The sticky-state file: merge under a lock, write aside, fsync, rename; with readers, kills and crashes. */
module SessionState {
  import opened Json

  type State = map<string, Value>

  /** One call's keyword arguments, each given once; `Null` (None) removes its key. */
  datatype Call = Call(fields: seq<(string, Value)>, root: string)

  type Update = u: Call | DistinctKeys(u.fields) witness Call([], "")

  predicate DistinctKeys(fields: seq<(string, Value)>) {
    forall i, j :: 0 <= i < j < |fields| ==> fields[i].0 != fields[j].0
  }

  const ROOT := "project_root"

  /** The key reads as the value given: it is there with that value, or absent for None. */
  predicate ReadsAs(state: State, key: string, value: Value) {
    if value.Null? then key !in state else key in state && state[key] == value
  }

  predicate ReadsAlike(state: State, other: State, key: string) {
    (key in state <==> key in other) && (key in state ==> state[key] == other[key])
  }

  /** The call says what the key is to be: a field it gives, or the project root it stamps. */
  predicate Says(u: Update, key: string, value: Value) {
    if key == ROOT then value == Str(u.root) else (key, value) in u.fields
  }

  predicate Silent(u: Update, key: string) {
    key != ROOT && forall i :: 0 <= i < |u.fields| ==> u.fields[i].0 != key
  }

  /** What one call makes of a state, key by key: each key it speaks of reads as it says, each other as before. */
  ghost predicate Obeys(state: State, u: Update, out: State) {
    && (forall key, value :: Says(u, key, value) ==> ReadsAs(out, key, value))
    && (forall key :: Silent(u, key) ==> ReadsAlike(out, state, key))
  }

  // ----- the merge -----

  function Applied(state: State, fields: seq<(string, Value)>): State {
    if fields == [] then state
    else
      var before := Applied(state, fields[..|fields| - 1]);
      var (key, value) := fields[|fields| - 1];
      if value.Null? then before - {key} else before[key := value]
  }

  function Merged(state: State, u: Update): State {
    Applied(state, u.fields)[ROOT := Str(u.root)]
  }

  /** The loop of `update` over its fields. */
  method MergeFields(state: State, u: Update) returns (out: State)
    ensures Obeys(state, u, out)
    ensures out == Merged(state, u)
  {
    out := state;
    for i := 0 to |u.fields|
      invariant out == Applied(state, u.fields[..i])
    {
      var (key, value) := u.fields[i];
      assert u.fields[..i + 1][..i] == u.fields[..i];
      if value.Null? {
        out := out - {key};
      } else {
        out := out[key := value];
      }
    }
    assert u.fields[..|u.fields|] == u.fields;
    out := out[ROOT := Str(u.root)];
    MergeObeys(state, u);
  }

  lemma MergeObeys(state: State, u: Update)
    ensures Obeys(state, u, Merged(state, u))
  {
    var out := Merged(state, u);
    forall key, value | Says(u, key, value)
      ensures ReadsAs(out, key, value)
    {
      if key != ROOT {
        var i :| 0 <= i < |u.fields| && u.fields[i] == (key, value);
        MergeIsPerKey(state, u.fields, key);
      }
    }
    forall key | Silent(u, key)
      ensures ReadsAlike(out, state, key)
    {
      MergeIsPerKey(state, u.fields, key);
    }
  }

  /** Field by field: a given key ends with the given value, or absent for None; every other key is kept. */
  lemma {:induction false} MergeIsPerKey(state: State, fields: seq<(string, Value)>, key: string)
    requires DistinctKeys(fields)
    ensures (forall i :: 0 <= i < |fields| ==> fields[i].0 != key) ==>
              (key in Applied(state, fields) <==> key in state) && Get(Obj(Applied(state, fields)), key) == Get(Obj(state), key)
    ensures forall i :: 0 <= i < |fields| && fields[i].0 == key ==>
              Get(Obj(Applied(state, fields)), key) == fields[i].1
              && (key in Applied(state, fields) <==> !fields[i].1.Null?)
  {
    if fields != [] {
      MergeIsPerKey(state, fields[..|fields| - 1], key);
    }
  }

  // ----- files -----

  datatype Content = Missing | Torn | Whole(v: Value)

  /** `read`: a missing or malformed file is an empty state; JSON that is no object makes `update` raise. */
  function ReadState(content: Content): Option<State> {
    match content
    case Missing => Some(map[])
    case Torn => Some(map[])
    case Whole(v) => if v.Obj? then Some(v.fields) else None
  }

  /** What an inode holds in the cache, and whether that has reached the disk. */
  datatype Inode = Inode(content: Content, synced: bool)

  /** Where the holder of the lock stands. */
  datatype Pc =
    | Holding                                // lock taken
    | HasRead(state: State)
    | Writing(target: State, tmp: nat)       // mkstemp done, dump under way
    | Written(target: State, tmp: nat)       // flushed to the OS
    | Synced(target: State, tmp: nat)        // fsync returned
    | Renamed

  datatype Holder = Holder(update: Update, pc: Pc)

  /** A lock-free reader: the inode it opened, and how many updates had completed then. */
  datatype Reader = Reader(inode: nat, seen: nat)

  datatype World = World(
    base: State,              // what the file read as at first
    inodes: map<nat, Inode>,
    entry: nat,               // the inode the path names
    survivors: set<nat>,      // the inodes the path may name after a crash
    next: nat,
    holder: Option<Holder>,
    log: seq<Update>,         // completed updates, in lock order
    durable: nat,             // how many of them no crash can undo
    readers: seq<Reader>,
    answers: seq<(Reader, Option<State>)>)

  datatype Step =
    | Acquire(update: Update)
    | ReadFile
    | OpenTmp
    | WriteTmp
    | SyncTmp
    | Rename
    | SyncDir(ok: bool)
    | Release
    | Abort                                  // an exception, or the process is killed; the lock goes with it
    | OpenReader
    | FinishReader(k: nat)
    | Crash(survivor: nat, lost: map<nat, Content>)

  /** The state after the first updates of a log. */
  function After(base: State, log: seq<Update>): State {
    if log == [] then base else Merged(After(base, log[..|log| - 1]), log[|log| - 1])
  }

  predicate Enabled(w: World, step: Step) {
    match step
    case Acquire(_) => w.holder.None?
    case ReadFile => w.holder.Some? && w.holder.value.pc.Holding? && w.entry in w.inodes
                     && ReadState(w.inodes[w.entry].content).Some?
    case OpenTmp => w.holder.Some? && w.holder.value.pc.HasRead?
    case WriteTmp => w.holder.Some? && w.holder.value.pc.Writing?
    case SyncTmp => w.holder.Some? && w.holder.value.pc.Written? && w.holder.value.pc.tmp in w.inodes
    case Rename => w.holder.Some? && w.holder.value.pc.Synced?
    case SyncDir(_) => w.holder.Some? && w.holder.value.pc.Renamed?
    case Release => w.holder.Some? && w.holder.value.pc.Renamed?
    case Abort => w.holder.Some?
    case OpenReader => w.entry in w.inodes
    case FinishReader(k) => k < |w.readers| && w.readers[k].inode in w.inodes
    case Crash(survivor, lost) =>
      survivor in w.survivors && survivor in w.inodes
      && lost.Keys == set n | n in w.inodes && !w.inodes[n].synced
  }

  function At(w: World, pc: Pc): World
    requires w.holder.Some?
  {
    w.(holder := Some(w.holder.value.(pc := pc)))
  }

  /** How many updates the inode's content accounts for: the history the survivor of a crash has. */
  ghost predicate Accounts(w: World, n: nat, k: nat) {
    n in w.inodes && w.inodes[n].synced && w.durable <= k <= |w.log|
    && ReadState(w.inodes[n].content) == Some(After(w.base, w.log[..k]))
    && (k > 0 ==> w.inodes[n].content == Whole(Obj(After(w.base, w.log[..k]))))
  }

  /** One step. After a crash every process is gone, unsynced contents may be anything, and the log keeps the
      `kept` updates the surviving file accounts for. */
  ghost function Apply(w: World, step: Step, kept: nat): World
    requires Enabled(w, step) && kept <= |w.log|
  {
    match step
    case Acquire(update) => w.(holder := Some(Holder(update, Holding)))
    case ReadFile => At(w, HasRead(ReadState(w.inodes[w.entry].content).value))
    case OpenTmp =>
      var target := Merged(w.holder.value.pc.state, w.holder.value.update);
      At(w, Writing(target, w.next)).(inodes := w.inodes[w.next := Inode(Torn, false)], next := w.next + 1)
    case WriteTmp =>
      var pc := w.holder.value.pc;
      At(w, Written(pc.target, pc.tmp)).(inodes := w.inodes[pc.tmp := Inode(Whole(Obj(pc.target)), false)])
    case SyncTmp =>
      var pc := w.holder.value.pc;
      At(w, Synced(pc.target, pc.tmp)).(inodes := w.inodes[pc.tmp := w.inodes[pc.tmp].(synced := true)])
    case Rename =>
      var pc := w.holder.value.pc;
      At(w, Renamed).(entry := pc.tmp, survivors := w.survivors + {pc.tmp}, log := w.log + [w.holder.value.update])
    case SyncDir(ok) => if ok then w.(survivors := {w.entry}, durable := |w.log|) else w
    case Release => w.(holder := None)
    case Abort => w.(holder := None)
    case OpenReader => w.(readers := w.readers + [Reader(w.entry, |w.log|)])
    case FinishReader(k) =>
      w.(answers := w.answers + [(w.readers[k], ReadState(w.inodes[w.readers[k].inode].content))])
    case Crash(survivor, lost) =>
      w.(inodes := map n | n in w.inodes :: if n in lost then Inode(lost[n], true) else w.inodes[n],
         entry := survivor, survivors := {survivor}, holder := None, log := w.log[..kept], durable := kept,
         readers := [], answers := [])
  }

  // ----- what every step keeps -----

  /** What the lock holder knows is the current state, and what it is about to install is the merge. */
  ghost predicate HolderRight(w: World, h: Holder) {
    var now := After(w.base, w.log);
    match h.pc
    case Holding => true
    case HasRead(state) => state == now
    case Writing(target, tmp) => target == Merged(now, h.update) && Private(w, tmp) && !w.inodes[tmp].synced
    case Written(target, tmp) => target == Merged(now, h.update) && Private(w, tmp)
                                 && w.inodes[tmp] == Inode(Whole(Obj(target)), false)
    case Synced(target, tmp) => target == Merged(now, h.update) && Private(w, tmp)
                                && w.inodes[tmp] == Inode(Whole(Obj(target)), true)
    case Renamed => true
  }

  /** A temporary file nobody else can name yet. */
  ghost predicate Private(w: World, tmp: nat) {
    tmp in w.inodes && tmp != w.entry && tmp !in w.survivors
    && forall k :: 0 <= k < |w.readers| ==> w.readers[k].inode != tmp
  }

  ghost predicate ReadRight(w: World, r: Reader) {
    r.inode in w.inodes && r.seen <= |w.log| && ReadState(w.inodes[r.inode].content) == Some(After(w.base, w.log[..r.seen]))
  }

  ghost predicate Inv(w: World) {
    && (forall n :: n in w.inodes ==> n < w.next)
    && w.durable <= |w.log|
    && w.entry in w.survivors
    && Accounts(w, w.entry, |w.log|)
    && (forall n :: n in w.survivors ==> exists k: nat :: Accounts(w, n, k))
    && (w.holder.Some? ==> HolderRight(w, w.holder.value))
    && (forall k :: 0 <= k < |w.readers| ==> ReadRight(w, w.readers[k]))
    && (forall k :: 0 <= k < |w.answers| ==>
          w.answers[k].0.seen <= |w.log| && w.answers[k].1 == Some(After(w.base, w.log[..w.answers[k].0.seen])))
  }

  /** `next` differs from `w` in ways the histories cannot see: no shared inode changes, no log, no durability. */
  ghost predicate SameHistory(w: World, next: World) {
    && next.base == w.base && next.log == w.log && next.durable == w.durable
    && next.entry == w.entry && next.survivors == w.survivors
    && (forall n :: n in w.inodes && (n == w.entry || n in w.survivors || exists k :: 0 <= k < |w.readers| && w.readers[k].inode == n)
          ==> n in next.inodes && next.inodes[n] == w.inodes[n])
  }

  /** Steps that touch only the holder's own temporary file, or only the holder, keep everything else. */
  lemma QuietStep(w: World, next: World)
    requires Inv(w) && SameHistory(w, next)
    requires next.readers == w.readers && next.answers == w.answers
    requires forall n :: n in next.inodes ==> n < next.next
    requires next.holder.Some? ==> HolderRight(next, next.holder.value)
    ensures Inv(next)
  {
    assert Accounts(next, next.entry, |next.log|);
    forall n | n in next.survivors
      ensures exists k: nat :: Accounts(next, n, k)
    {
      var k: nat :| Accounts(w, n, k);
      assert Accounts(next, n, k);
    }
    forall k | 0 <= k < |next.readers|
      ensures ReadRight(next, next.readers[k])
    {
      assert ReadRight(w, w.readers[k]);
    }
  }

  predicate Quiet(step: Step) {
    step.Acquire? || step.ReadFile? || step.OpenTmp? || step.WriteTmp? || step.SyncTmp? || step.Release? || step.Abort?
  }

  lemma QuietStepKeepsInv(w: World, step: Step)
    requires Inv(w) && Enabled(w, step) && Quiet(step)
    ensures Inv(Apply(w, step, 0))
  {
    var next := Apply(w, step, 0);
    assert w.log[..|w.log|] == w.log;
    forall k | 0 <= k < |w.readers|
      ensures w.readers[k].inode in w.inodes
    {
      assert ReadRight(w, w.readers[k]);
    }
    forall n | n in w.survivors
      ensures n in w.inodes
    {
      var k: nat :| Accounts(w, n, k);
    }
    QuietStep(w, next);
  }

  lemma AfterSnoc(base: State, log: seq<Update>, u: Update)
    ensures After(base, log + [u]) == Merged(After(base, log), u)
  {
    assert (log + [u])[..|log|] == log;
  }

  lemma RenameKeepsInv(w: World)
    requires Inv(w) && Enabled(w, Rename)
    ensures Inv(Apply(w, Rename, 0))
  {
    var next, pc := Apply(w, Rename, 0), w.holder.value.pc;
    NewEntryAccounts(w, next, pc.target, pc.tmp, w.holder.value.update);
    SurvivorsAccount(w, next, pc.tmp);
    EarlierReadsStand(w, next);
  }

  /** The file renamed into place holds the merge of everything completed, this update last. */
  lemma NewEntryAccounts(w: World, next: World, target: State, tmp: nat, u: Update)
    requires tmp in w.inodes && w.inodes[tmp] == Inode(Whole(Obj(target)), true)
    requires target == Merged(After(w.base, w.log), u) && w.durable <= |w.log|
    requires next.inodes == w.inodes && next.base == w.base && next.durable == w.durable && next.log == w.log + [u]
    ensures Accounts(next, tmp, |next.log|)
  {
    AfterSnoc(w.base, w.log, u);
    assert next.log[..|next.log|] == next.log;
  }

  lemma SurvivorsAccount(w: World, next: World, tmp: nat)
    requires forall n :: n in w.survivors ==> exists k: nat :: Accounts(w, n, k)
    requires w.log <= next.log && next.base == w.base && next.inodes == w.inodes && next.durable == w.durable
    requires next.survivors == w.survivors + {tmp} && Accounts(next, tmp, |next.log|)
    ensures forall n :: n in next.survivors ==> exists k: nat :: Accounts(next, n, k)
  {
    forall n | n in next.survivors
      ensures exists k: nat :: Accounts(next, n, k)
    {
      if n in w.survivors {
        var k: nat :| Accounts(w, n, k);
        AccountsStands(w, next, n, k);
      }
    }
  }

  lemma AccountsStands(w: World, next: World, n: nat, k: nat)
    requires Accounts(w, n, k) && w.log <= next.log && next.base == w.base
    requires next.inodes == w.inodes && next.durable == w.durable
    ensures Accounts(next, n, k)
  {
    assert next.log[..k] == w.log[..k];
  }

  /** What was read of a shorter log stands in a longer one. */
  lemma EarlierReadsStand(w: World, next: World)
    requires Inv(w) && w.log <= next.log && next.base == w.base
    requires next.readers == w.readers && next.answers == w.answers && next.inodes == w.inodes
    ensures forall k :: 0 <= k < |next.readers| ==> ReadRight(next, next.readers[k])
    ensures forall k :: 0 <= k < |next.answers| ==>
              next.answers[k].0.seen <= |next.log|
              && next.answers[k].1 == Some(After(next.base, next.log[..next.answers[k].0.seen]))
  {
    assert forall k :: 0 <= k <= |w.log| ==> next.log[..k] == w.log[..k];
    forall k | 0 <= k < |next.readers|
      ensures ReadRight(next, next.readers[k])
    {
      assert ReadRight(w, w.readers[k]);
    }
  }

  lemma SyncDirKeepsInv(w: World, ok: bool)
    requires Inv(w) && Enabled(w, SyncDir(ok))
    ensures Inv(Apply(w, SyncDir(ok), 0))
  {
    var next := Apply(w, SyncDir(ok), 0);
    assert Accounts(w, w.entry, |w.log|);
    assert Accounts(next, next.entry, |next.log|);
    forall k | 0 <= k < |next.readers|
      ensures ReadRight(next, next.readers[k])
    {
      assert ReadRight(w, w.readers[k]);
    }
  }

  /** Only a directory sync that succeeds makes the completed updates safe from every crash. */
  lemma DirectorySyncMakesDurable(w: World, ok: bool)
    requires Enabled(w, SyncDir(ok)) && w.durable <= |w.log|
    ensures var next := Apply(w, SyncDir(ok), 0);
            && (ok ==> next.durable == |w.log| && forall n :: n in next.survivors <==> n == w.entry)
            && (!ok ==> next.durable == w.durable && next.survivors == w.survivors)
  {
  }

  lemma ReaderStepKeepsInv(w: World, step: Step)
    requires Inv(w) && Enabled(w, step) && (step.OpenReader? || step.FinishReader?)
    ensures Inv(Apply(w, step, 0))
  {
    var next := Apply(w, step, 0);
    assert w.log[..|w.log|] == w.log;
    assert Accounts(next, next.entry, |next.log|);
    forall n | n in next.survivors
      ensures exists k: nat :: Accounts(next, n, k)
    {
      var k: nat :| Accounts(w, n, k);
      assert Accounts(next, n, k);
    }
    forall k | 0 <= k < |next.readers|
      ensures ReadRight(next, next.readers[k])
    {
      if k < |w.readers| {
        assert ReadRight(w, w.readers[k]);
      }
    }
    if step.FinishReader? {
      assert ReadRight(w, w.readers[step.k]);
    }
  }

  lemma CrashKeepsInv(w: World, step: Step, kept: nat)
    requires Inv(w) && step.Crash? && Enabled(w, step) && Accounts(w, step.survivor, kept)
    ensures Inv(Apply(w, step, kept))
  {
    var next := Apply(w, step, kept);
    assert w.log[..kept][..kept] == w.log[..kept];
    assert Accounts(next, next.entry, kept);
  }

  /** One step of the world: a crash keeps the updates its surviving file accounts for. */
  ghost predicate Next(w: World, step: Step, next: World) {
    && Enabled(w, step)
    && if step.Crash? then exists kept: nat :: kept <= |w.log| && Accounts(w, step.survivor, kept) && next == Apply(w, step, kept)
       else next == Apply(w, step, 0)
  }

  /** Every enabled step, the crash included, leads somewhere, and to a good world. */
  lemma StepKeepsInv(w: World, step: Step, next: World)
    requires Inv(w) && Next(w, step, next)
    ensures Inv(next)
  {
    if Quiet(step) {
      QuietStepKeepsInv(w, step);
    } else {
      match step {
        case Rename => RenameKeepsInv(w);
        case SyncDir(ok) => SyncDirKeepsInv(w, ok);
        case Crash(survivor, lost) =>
          var kept: nat :| kept <= |w.log| && Accounts(w, survivor, kept) && next == Apply(w, step, kept);
          CrashKeepsInv(w, step, kept);
        case _ => ReaderStepKeepsInv(w, step);
      }
    }
  }

  // ----- runs -----

  function Start(content: Content): World
    requires ReadState(content).Some?
  {
    World(ReadState(content).value, map[0 := Inode(content, true)], 0, {0}, 1, None, [], 0, [], [])
  }

  /** A run of any number of callers, readers, failures and crashes. */
  ghost predicate Run(content: Content, worlds: seq<World>, steps: seq<Step>)
    requires ReadState(content).Some?
  {
    && |worlds| == |steps| + 1 && worlds[0] == Start(content)
    && forall k :: 0 <= k < |steps| ==> Next(worlds[k], steps[k], worlds[k + 1])
  }

  /** A file that is missing or malformed is an empty state to start from. */
  lemma NothingReadsAsNothing(content: Content)
    ensures ReadState(content).None? <==> content.Whole? && !content.v.Obj?
    ensures !content.Whole? ==> Start(content).base == map[]
  {
  }

  /** These steps, one after another and nothing between, lead there. */
  ghost predicate Leads(w: World, steps: seq<Step>, after: World)
    decreases |steps|
  {
    if steps == [] then w == after
    else !steps[0].Crash? && Enabled(w, steps[0]) && Leads(Apply(w, steps[0], 0), steps[1..], after)
  }

  lemma StepFirst(w: World, step: Step, rest: seq<Step>, after: World)
    requires !step.Crash? && Enabled(w, step) && Leads(Apply(w, step, 0), rest, after)
    ensures Leads(w, [step] + rest, after)
  {
    assert ([step] + rest)[1..] == rest;
  }

  /** A caller that finds the lock free and is not interrupted gets through: its update completes, durably, and the lock is
      free again. */
  lemma UpdateGoesThrough(w: World, u: Update) returns (after: World)
    requires Inv(w) && w.holder.None?
    ensures Leads(w, [Acquire(u)] + ([ReadFile] + ([OpenTmp] + ([WriteTmp] + (
                     [SyncTmp] + ([Rename] + ([SyncDir(true)] + ([Release] + []))))))), after)
    ensures after.log == w.log + [u] && after.durable == |after.log| && after.holder.None?
  {
    var held := Apply(w, Acquire(u), 0);
    var read := Apply(held, ReadFile, 0);
    var made := Apply(read, OpenTmp, 0);
    var written := Apply(made, WriteTmp, 0);
    after := WrittenGoesThrough(written);
    var last := [SyncTmp] + ([Rename] + ([SyncDir(true)] + ([Release] + [])));
    StepFirst(made, WriteTmp, last, after);
    StepFirst(read, OpenTmp, [WriteTmp] + last, after);
    StepFirst(held, ReadFile, [OpenTmp] + ([WriteTmp] + last), after);
    StepFirst(w, Acquire(u), [ReadFile] + ([OpenTmp] + ([WriteTmp] + last)), after);
  }

  lemma WrittenGoesThrough(w: World) returns (after: World)
    requires w.holder.Some? && w.holder.value.pc.Written? && w.holder.value.pc.tmp in w.inodes
    ensures Leads(w, [SyncTmp] + ([Rename] + ([SyncDir(true)] + ([Release] + []))), after)
    ensures after.log == w.log + [w.holder.value.update] && after.durable == |after.log| && after.holder.None?
  {
    var synced := Apply(w, SyncTmp, 0);
    var renamed := Apply(synced, Rename, 0);
    var durable := Apply(renamed, SyncDir(true), 0);
    after := Apply(durable, Release, 0);
    StepFirst(durable, Release, [], after);
    StepFirst(renamed, SyncDir(true), [Release] + [], after);
    StepFirst(synced, Rename, [SyncDir(true)] + ([Release] + []), after);
    StepFirst(w, SyncTmp, [Rename] + ([SyncDir(true)] + ([Release] + [])), after);
  }

  /** A lock-free reader is answered with what the file held when it was opened, whatever the next caller does. */
  lemma ReadGoesThrough(w: World, step: Step)
    requires Inv(w) && Enabled(w, OpenReader) && !step.Crash? && !step.WriteTmp? && !step.FinishReader?
    requires Enabled(Apply(w, OpenReader, 0), step)
    ensures var later := Apply(Apply(w, OpenReader, 0), step, 0);
            && Enabled(later, FinishReader(|w.readers|))
            && Apply(later, FinishReader(|w.readers|), 0).answers ==
               w.answers + [(Reader(w.entry, |w.log|), Some(After(w.base, w.log)))]
  {
    assert w.log[..|w.log|] == w.log;
  }

  lemma {:induction false} RunKeepsInv(content: Content, worlds: seq<World>, steps: seq<Step>, n: nat)
    requires ReadState(content).Some? && Run(content, worlds, steps) && n < |worlds|
    ensures Inv(worlds[n])
  {
    if n == 0 {
      var w := Start(content);
      assert Accounts(w, 0, 0);
    } else {
      RunKeepsInv(content, worlds, steps, n - 1);
      StepKeepsInv(worlds[n - 1], steps[n - 1], worlds[n]);
    }
  }

  // ----- the last word on a key -----

  /** No update lost: a key reads as the last completed update that spoke of it said, and as at first if none did. */
  ghost predicate LastWordsStand(base: State, log: seq<Update>, state: State) {
    && (forall i, key, value :: 0 <= i < |log| && Says(log[i], key, value) && SilentAfter(log, i, key) ==>
          ReadsAs(state, key, value))
    && (forall key :: SilentAfter(log, -1, key) ==> ReadsAlike(state, base, key))
  }

  predicate SilentAfter(log: seq<Update>, i: int, key: string)
    requires i >= -1
  {
    forall m :: i < m < |log| ==> Silent(log[m], key)
  }

  lemma {:induction false} LastWordsOfTheLog(base: State, log: seq<Update>)
    ensures LastWordsStand(base, log, After(base, log))
  {
    if log != [] {
      var n := |log| - 1;
      var before := log[..n];
      LastWordsOfTheLog(base, before);
      MergeObeys(After(base, before), log[n]);
      OneMoreWord(base, before, log[n], After(base, before), After(base, log));
      assert log == before + [log[n]];
    }
  }

  lemma OneMoreWord(base: State, log: seq<Update>, u: Update, state: State, next: State)
    requires LastWordsStand(base, log, state) && Obeys(state, u, next)
    ensures LastWordsStand(base, log + [u], next)
  {
    var more := log + [u];
    forall i, key, value | 0 <= i < |more| && Says(more[i], key, value) && SilentAfter(more, i, key)
      ensures ReadsAs(next, key, value)
    {
      if i < |log| {
        StillSilent(log, u, i, key);
        assert more[i] == log[i] && Says(log[i], key, value);
        assert ReadsAs(state, key, value) && ReadsAlike(next, state, key);
      } else {
        assert more[i] == u;
      }
    }
    forall key | SilentAfter(more, -1, key)
      ensures ReadsAlike(next, base, key)
    {
      StillSilent(log, u, -1, key);
    }
  }

  lemma StillSilent(log: seq<Update>, u: Update, i: int, key: string)
    requires -1 <= i < |log| && SilentAfter(log + [u], i, key)
    ensures SilentAfter(log, i, key) && Silent(u, key)
  {
    assert (log + [u])[|log|] == u;
    forall m | i < m < |log|
      ensures Silent(log[m], key)
    {
      assert (log + [u])[m] == log[m];
    }
  }

  /** At every moment of every run: the file reads as all the completed updates, in lock order, none lost; a
      lock-free read answers the state of the moment it opened the file; and a crash then would leave, whole,
      the state after some of those updates, no durable one missing. */
  lemma NoUpdateIsLost(content: Content, worlds: seq<World>, steps: seq<Step>, n: nat)
    requires ReadState(content).Some? && Run(content, worlds, steps) && n < |worlds|
    ensures var w := worlds[n];
            && w.entry in w.inodes && ReadState(w.inodes[w.entry].content) == Some(After(w.base, w.log))
            && LastWordsStand(w.base, w.log, ReadState(w.inodes[w.entry].content).value)
            && (forall k :: 0 <= k < |w.answers| ==>
                  w.answers[k].0.seen <= |w.log| && w.answers[k].1.Some?
                  && LastWordsStand(w.base, w.log[..w.answers[k].0.seen], w.answers[k].1.value))
            && (forall k :: 0 <= k < |w.answers| ==>
                  w.answers[k].0.seen <= |w.log| && w.answers[k].1 == Some(After(w.base, w.log[..w.answers[k].0.seen])))
            && (forall survivor, lost :: Enabled(w, Crash(survivor, lost)) ==>
                  exists kept: nat :: kept <= |w.log| && Accounts(w, survivor, kept)
                                      && ReadState(Apply(w, Crash(survivor, lost), kept).inodes[survivor].content)
                                         == Some(After(w.base, w.log[..kept])))
  {
    RunKeepsInv(content, worlds, steps, n);
    var w := worlds[n];
    assert w.log[..|w.log|] == w.log;
    LastWordsOfTheLog(w.base, w.log);
    forall k | 0 <= k < |w.answers|
      ensures w.answers[k].0.seen <= |w.log| && w.answers[k].1.Some?
      ensures LastWordsStand(w.base, w.log[..w.answers[k].0.seen], w.answers[k].1.value)
    {
      assert w.answers[k].1 == Some(After(w.base, w.log[..w.answers[k].0.seen]));
      LastWordsOfTheLog(w.base, w.log[..w.answers[k].0.seen]);
    }
    forall survivor, lost | Enabled(w, Crash(survivor, lost))
      ensures exists kept: nat :: kept <= |w.log| && Accounts(w, survivor, kept)
                                  && ReadState(Apply(w, Crash(survivor, lost), kept).inodes[survivor].content)
                                     == Some(After(w.base, w.log[..kept]))
    {
      var kept: nat :| Accounts(w, survivor, kept);
      assert survivor !in lost;
    }
  }

  /** With every earlier update durable, a crash around one more leaves the old state or the new one. */
  lemma CrashLeavesOldOrNew(content: Content, worlds: seq<World>, steps: seq<Step>, n: nat, survivor: nat)
    requires ReadState(content).Some? && Run(content, worlds, steps) && n < |worlds|
    requires survivor in worlds[n].survivors && |worlds[n].log| <= worlds[n].durable + 1
    ensures var w := worlds[n];
            w.durable <= |w.log| && survivor in w.inodes && w.inodes[survivor].synced
            && (ReadState(w.inodes[survivor].content) == Some(After(w.base, w.log))
                || ReadState(w.inodes[survivor].content) == Some(After(w.base, w.log[..w.durable])))
    ensures var w := worlds[n];
            && ReadState(w.inodes[survivor].content).Some?
            && var state := ReadState(w.inodes[survivor].content).value;
               LastWordsStand(w.base, w.log, state) || LastWordsStand(w.base, w.log[..w.durable], state)
  {
    RunKeepsInv(content, worlds, steps, n);
    var w := worlds[n];
    var kept: nat :| Accounts(w, survivor, kept);
    assert w.log[..|w.log|] == w.log;
    LastWordsOfTheLog(w.base, w.log);
    LastWordsOfTheLog(w.base, w.log[..w.durable]);
  }
}
