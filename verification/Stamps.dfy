/** Concurrent user and native build runs sharing one output tree, a lock and two stamps. */
module Stamps {
  type Path = seq<string>

  // ---- where the lock lives -------------------------------------------------------------

  predicate InTree(p: Path, root: Path) {
    root <= p
  }

  /** A sibling of the output directory, named after it. */
  function LockPath(out: Path): (p: Path)
    requires out != []
    ensures |p| == |out| && p[..|p| - 1] == out[..|out| - 1]
  {
    out[..|out| - 1] + ["." + out[|out| - 1] + ".a20-build.lock"]
  }

  /** Removing the output tree can never remove its lock, whatever the directory is called. */
  lemma LockOutsideTree(out: Path)
    requires out != []
    ensures !InTree(LockPath(out), out)
  {
    var n := |out| - 1;
    assert |LockPath(out)[n]| == |out[n]| + 16;
  }

  // ---- the shared state -------------------------------------------------------------------

  /** Every write makes a new version, even of the same bytes; `since` is when the writer of a stamp got the lock. */
  datatype File = File(version: nat, id: string, since: nat)

  datatype Kind = User | Native

  datatype Pc =
    | Start
    | Waiting                    // lock file open, lock not yet granted
    | Deciding
    | Invalidating(clean: bool)
    | Cleaning
    | Building
    | Stamping
    | Releasing(upToDate: bool)
    | Done

  datatype Proc = Proc(kind: Kind, id: string, pc: Pc, handle: nat, since: nat)

  /** The output tree, the lock, the files the native sub-make writes, and the binaries a native run looks for. */
  datatype Config = Config(out: Path, lock: Path, natives: set<Path>, binaries: set<Path>)

  function StampOf(c: Config, kind: Kind): Path {
    if kind.User? then c.out + [".build-id"] else c.out + [".native-build-id"]
  }

  /** The files whose presence a run tests before it answers "up to date". */
  function Tested(c: Config, kind: Kind): set<Path> {
    if kind.User? then {c.out + ["init"], c.out + ["mksh"]} else c.binaries
  }

  /** What sub-makes write: files of the tree other than the stamps and the lock. */
  predicate Artefact(c: Config, f: Path) {
    InTree(f, c.out) && f != StampOf(c, User) && f != StampOf(c, Native) && f != c.lock
  }

  /** A build of this kind is made of these files: the native ones, or all others. */
  predicate Belongs(c: Config, kind: Kind, f: Path) {
    Artefact(c, f) && (f in c.natives <==> kind.Native?)
  }

  /** What a stamp stands for: the configuration, and its files as the sub-make left them. */
  datatype Built = Built(id: string, files: map<Path, File>)

  datatype State = State(
    fs: map<Path, File>,
    owner: map<nat, nat>,        // granted locks: lock file version to process
    procs: map<nat, Proc>,
    clock: nat, versions: nat,
    touched: nat,                // when a user rebuild last changed the tree
    user: Built, native: Built)  // at the last stamp of each kind

  function BuiltOf(s: State, kind: Kind): Built {
    if kind.User? then s.user else s.native
  }

  /** Between taking the lock and giving it back. */
  predicate Critical(pc: Pc) {
    pc.Deciding? || Changing(pc) || pc.Invalidating? || pc.Releasing?
  }

  predicate Changing(pc: Pc) {
    pc.Cleaning? || pc.Building? || pc.Stamping?
  }

  datatype Label =
    | Spawn(p: nat, kind: Kind, id: string)
    | Open(p: nat)
    | Acquire(p: nat)
    | Decide(p: nat, newer: bool)                 // newer: a source is newer than the stamp
    | Invalidate(p: nat)
    | Clean(p: nat, ok: bool, gone: set<Path>)    // ok: the sub-make exits with 0
    | Build(p: nat, ok: bool, gone: set<Path>, made: map<Path, File>, next: nat)
    | Stamp(p: nat)
    | Release(p: nat)
    | Die(p: nat)

  predicate At(s: State, p: nat, pc: Pc) {
    p in s.procs && s.procs[p].pc == pc
  }

  ghost predicate Cleans(c: Config, fs: map<Path, File>, ok: bool, gone: set<Path>) {
    (forall f :: f in gone ==> InTree(f, c.out)) && (ok ==> forall f :: f in fs && InTree(f, c.out) ==> f in gone)
  }

  /** A user sub-make may rewrite native files too; a native one leaves the user's alone. */
  predicate MayWrite(c: Config, kind: Kind, f: Path) {
    Artefact(c, f) && (kind.Native? ==> f in c.natives)
  }

  ghost predicate Builds(c: Config, kind: Kind, versions: nat, gone: set<Path>, made: map<Path, File>, next: nat) {
    && versions <= next
    && (forall f :: f in gone ==> MayWrite(c, kind, f))
    && (forall f :: f in made ==> MayWrite(c, kind, f) && versions <= made[f].version < next)
  }

  ghost predicate Enabled(c: Config, s: State, l: Label) {
    match l
    case Spawn(p, _, _) => p !in s.procs
    case Open(p) => At(s, p, Start)
    case Acquire(p) => At(s, p, Waiting) && s.procs[p].handle !in s.owner
    case Decide(p, _) => At(s, p, Deciding)
    case Invalidate(p) => p in s.procs && s.procs[p].pc.Invalidating?
    case Clean(p, ok, gone) => At(s, p, Cleaning) && Cleans(c, s.fs, ok, gone)
    case Build(p, ok, gone, made, next) =>
      At(s, p, Building) && Builds(c, s.procs[p].kind, s.versions, gone, made, next)
    case Stamp(p) => At(s, p, Stamping)
    case Release(p) => p in s.procs && s.procs[p].pc.Releasing?
    case Die(p) => p in s.procs && !s.procs[p].pc.Done?
  }

  // ---- what a step does, part by part ----------------------------------------------------------

  function Unlink(fs: map<Path, File>, gone: set<Path>): map<Path, File> {
    map f | f in fs && f !in gone :: fs[f]
  }

  ghost function FsAfter(c: Config, s: State, l: Label): map<Path, File>
    requires Enabled(c, s, l)
  {
    match l
    case Open(_) => if c.lock in s.fs then s.fs else s.fs[c.lock := File(s.versions, "", s.clock + 1)]
    case Invalidate(_) => Unlink(s.fs, {StampOf(c, Native)})
    case Clean(_, _, gone) => Unlink(s.fs, gone)
    case Build(_, _, gone, made, _) => Unlink(s.fs, gone) + made
    case Stamp(p) =>
      var pr := s.procs[p];
      s.fs[StampOf(c, pr.kind) := File(s.versions, pr.id, pr.since)]
    case _ => s.fs
  }

  function Drop(owner: map<nat, nat>, p: nat): map<nat, nat> {
    map h | h in owner && owner[h] != p :: owner[h]
  }

  /** A process that ends, by itself or not, gives up its lock. */
  ghost function OwnerAfter(c: Config, s: State, l: Label): map<nat, nat>
    requires Enabled(c, s, l)
  {
    match l
    case Acquire(p) => s.owner[s.procs[p].handle := p]
    case Release(p) => Drop(s.owner, p)
    case Die(p) => Drop(s.owner, p)
    case _ => s.owner
  }

  /** A run answers "up to date" when its stamp matches, the tested files are there and no source is newer. */
  predicate UpToDate(c: Config, fs: map<Path, File>, pr: Proc, newer: bool) {
    Matches(c, fs, pr) && !newer && forall f :: f in Tested(c, pr.kind) ==> f in fs
  }

  predicate Matches(c: Config, fs: map<Path, File>, pr: Proc) {
    StampOf(c, pr.kind) in fs && fs[StampOf(c, pr.kind)].id == pr.id
  }

  ghost function PcAfter(c: Config, s: State, l: Label): Pc
    requires Enabled(c, s, l)
  {
    match l
    case Spawn(_, _, _) => Start
    case Open(_) => Waiting
    case Acquire(_) => Deciding
    case Decide(p, newer) =>
      var pr := s.procs[p];
      if UpToDate(c, s.fs, pr, newer) then Releasing(true)
      else if pr.kind.User? then Invalidating(!Matches(c, s.fs, pr)) else Building
    case Invalidate(p) => if s.procs[p].pc.clean then Cleaning else Building
    case Clean(_, ok, _) => if ok then Building else Releasing(false)
    case Build(_, ok, _, _, _) => if ok then Stamping else Releasing(false)
    case Stamp(_) => Releasing(false)
    case Release(_) => Done
    case Die(_) => Done
  }

  ghost function ProcAfter(c: Config, s: State, l: Label): Proc
    requires Enabled(c, s, l)
  {
    var pc := PcAfter(c, s, l);
    match l
    case Spawn(_, kind, id) => Proc(kind, id, pc, 0, 0)
    case Open(p) => s.procs[p].(pc := pc, handle := if c.lock in s.fs then s.fs[c.lock].version else s.versions)
    case Acquire(p) => s.procs[p].(pc := pc, since := s.clock + 1)
    case _ => s.procs[l.p].(pc := pc)
  }

  function VersionsAfter(s: State, l: Label): nat {
    match l
    case Open(_) => s.versions + 1
    case Stamp(_) => s.versions + 1
    case Build(_, _, _, _, next) => next
    case _ => s.versions
  }

  /** A user rebuild touches the tree when it invalidates, cleans or builds. */
  function TouchedAfter(s: State, l: Label): nat {
    if l.Invalidate? || l.Clean? || (l.Build? && l.p in s.procs && s.procs[l.p].kind.User?) then s.clock + 1
    else s.touched
  }

  function FilesOf(c: Config, kind: Kind, fs: map<Path, File>): map<Path, File> {
    map f | f in fs && Belongs(c, kind, f) :: fs[f]
  }

  predicate Finishes(s: State, l: Label, kind: Kind) {
    l.Stamp? && l.p in s.procs && s.procs[l.p].kind == kind
  }

  function BuiltAfter(c: Config, s: State, l: Label, kind: Kind): Built {
    if Finishes(s, l, kind) then Built(s.procs[l.p].id, FilesOf(c, kind, s.fs)) else BuiltOf(s, kind)
  }

  /** Every step takes time. */
  ghost function Take(c: Config, s: State, l: Label): State
    requires Enabled(c, s, l)
  {
    State(FsAfter(c, s, l), OwnerAfter(c, s, l), s.procs[l.p := ProcAfter(c, s, l)], s.clock + 1, VersionsAfter(s, l),
          TouchedAfter(s, l), BuiltAfter(c, s, l, User), BuiltAfter(c, s, l, Native))
  }

  ghost predicate Run(c: Config, s: State, ls: seq<Label>)
    decreases |ls|
  {
    ls == [] || (Enabled(c, s, ls[0]) && Run(c, Take(c, s, ls[0]), ls[1..]))
  }

  ghost function After(c: Config, s: State, ls: seq<Label>): State
    requires Run(c, s, ls)
    decreases |ls|
  {
    if ls == [] then s else After(c, Take(c, s, ls[0]), ls[1..])
  }

  // ---- what every step keeps ------------------------------------------------------------------

  /** Every open handle is on the one lock file that exists. */
  ghost predicate OneLock(c: Config, fs: map<Path, File>, pr: Proc) {
    pr.pc.Waiting? || Critical(pr.pc) ==> c.lock in fs && pr.handle == fs[c.lock].version
  }

  predicate Holds(owner: map<nat, nat>, p: nat, pr: Proc) {
    Critical(pr.pc) ==> pr.handle in owner && owner[pr.handle] == p
  }

  ghost predicate OwnerLives(s: State, h: nat) {
    h in s.owner ==> s.owner[h] in s.procs && Critical(s.procs[s.owner[h]].pc) && s.procs[s.owner[h]].handle == h
  }

  /** A native run holding the lock got it after the tree was last touched by a user rebuild. */
  predicate AfterTouch(touched: nat, pr: Proc) {
    Critical(pr.pc) && pr.kind.Native? ==> touched < pr.since
  }

  /** A rebuild in progress has removed the native stamp. */
  predicate Invalidated(c: Config, fs: map<Path, File>, pr: Proc) {
    Changing(pr.pc) && pr.kind.User? ==> StampOf(c, Native) !in fs
  }

  predicate Shape(pr: Proc) {
    (pr.pc.Invalidating? || pr.pc.Cleaning?) ==> pr.kind.User?
  }

  ghost predicate ProcInv(c: Config, s: State, p: nat, pr: Proc) {
    Shape(pr) && OneLock(c, s.fs, pr) && Holds(s.owner, p, pr) && AfterTouch(s.touched, pr) && Invalidated(c, s.fs, pr)
  }

  /** The native stamp was written by a run that began after the last user rebuild touched the tree. */
  predicate NativeFresh(c: Config, fs: map<Path, File>, touched: nat) {
    StampOf(c, Native) in fs ==> touched < fs[StampOf(c, Native)].since
  }

  /** A stamp that exists names the configuration that was last stamped. */
  predicate StampNames(c: Config, fs: map<Path, File>, kind: Kind, id: string) {
    StampOf(c, kind) in fs ==> fs[StampOf(c, kind)].id == id
  }

  predicate Older(files: map<Path, File>, versions: nat) {
    forall f :: f in files ==> files[f].version < versions
  }

  /** The record of a stamp: files of its kind, no newer than the clock of versions, under the name the stamp has. */
  predicate Recorded(c: Config, s: State, kind: Kind) {
    && StampNames(c, s.fs, kind, BuiltOf(s, kind).id)
    && Older(BuiltOf(s, kind).files, s.versions)
    && (forall f :: f in BuiltOf(s, kind).files ==> Belongs(c, kind, f))
  }

  /** Everything that does not speak of single processes. */
  predicate Common(c: Config, s: State) {
    && s.touched <= s.clock && NativeFresh(c, s.fs, s.touched) && Older(s.fs, s.versions)
    && Recorded(c, s, User) && Recorded(c, s, Native)
  }

  ghost predicate Inv(c: Config, s: State) {
    && (forall p :: p in s.procs ==> ProcInv(c, s, p, s.procs[p]))
    && (forall h :: OwnerLives(s, h))
    && Common(c, s)
  }

  predicate Exclusive(s: State) {
    forall p, q :: p in s.procs && q in s.procs && Critical(s.procs[p].pc) && Critical(s.procs[q].pc) ==> p == q
  }

  lemma InvIsExclusive(c: Config, s: State)
    requires Inv(c, s)
    ensures Exclusive(s)
  {
    hide Common;
    forall p, q | p in s.procs && q in s.procs && Critical(s.procs[p].pc) && Critical(s.procs[q].pc)
      ensures p == q
    {
      assert ProcInv(c, s, p, s.procs[p]) && ProcInv(c, s, q, s.procs[q]);
    }
  }

  predicate Apart(c: Config) {
    !InTree(c.lock, c.out)
  }

  /** The two stamps are different files of the tree. */
  lemma StampPlaces(c: Config)
    ensures StampOf(c, User) != StampOf(c, Native)
    ensures forall k :: InTree(StampOf(c, k), c.out)
  {
    assert StampOf(c, User)[|c.out|] != StampOf(c, Native)[|c.out|];
  }

  /** Nothing replaces the lock file. */
  lemma LockStays(c: Config, s: State, l: Label)
    requires Apart(c) && Enabled(c, s, l) && c.lock in s.fs
    ensures c.lock in FsAfter(c, s, l) && FsAfter(c, s, l)[c.lock] == s.fs[c.lock]
  {
    StampPlaces(c);
  }

  /** Only the holder of the lock changes the native stamp or touches the tree. */
  lemma QuietParts(c: Config, s: State, l: Label)
    requires Enabled(c, s, l)
    requires l.p !in s.procs || !Critical(s.procs[l.p].pc)
    ensures TouchedAfter(s, l) == s.touched
    ensures StampOf(c, Native) in FsAfter(c, s, l) && c.lock != StampOf(c, Native) ==> StampOf(c, Native) in s.fs
  {
  }

  /** A step keeps the part of every process other than the one that takes it. */
  lemma OthersKeep(c: Config, s: State, l: Label, q: nat)
    requires Apart(c) && Inv(c, s) && Enabled(c, s, l)
    requires q in s.procs && q != l.p
    ensures ProcInv(c, Take(c, s, l), q, s.procs[q])
  {
    hide Common, FsAfter, OwnerAfter, TouchedAfter, PcAfter;
    InvIsExclusive(c, s);
    StampPlaces(c);
    assert ProcInv(c, s, q, s.procs[q]);
    if c.lock in s.fs { LockStays(c, s, l); }
    if Critical(s.procs[q].pc) { QuietParts(c, s, l); }
    OwnerOf(c, s, l, q);
  }

  /** A step takes the lock from no other process. */
  lemma OwnerOf(c: Config, s: State, l: Label, q: nat)
    requires Enabled(c, s, l) && q in s.procs && q != l.p && Holds(s.owner, q, s.procs[q])
    ensures Holds(OwnerAfter(c, s, l), q, s.procs[q])
  {
  }

  /** The process that takes the step still holds the one lock if it needs it. */
  lemma MoverHolds(c: Config, s: State, l: Label)
    requires Apart(c) && Inv(c, s) && Enabled(c, s, l)
    ensures OneLock(c, FsAfter(c, s, l), ProcAfter(c, s, l)) && Holds(OwnerAfter(c, s, l), l.p, ProcAfter(c, s, l))
  {
    hide Common, AfterTouch, Invalidated, UpToDate, Matches;
    if l.p in s.procs { assert ProcInv(c, s, l.p, s.procs[l.p]); }
    if c.lock in s.fs { LockStays(c, s, l); }
  }

  lemma MoverFresh(c: Config, s: State, l: Label)
    requires Inv(c, s) && Enabled(c, s, l)
    ensures var pr := ProcAfter(c, s, l);
      Shape(pr) && AfterTouch(TouchedAfter(s, l), pr) && Invalidated(c, FsAfter(c, s, l), pr)
  {
    hide OneLock, Holds, UpToDate, Matches, Recorded, NativeFresh, Older;
    StampPlaces(c);
    if l.p in s.procs { assert ProcInv(c, s, l.p, s.procs[l.p]); }
  }

  lemma OwnerKeeps(c: Config, s: State, l: Label, h: nat)
    requires Inv(c, s) && Enabled(c, s, l)
    ensures OwnerLives(Take(c, s, l), h)
  {
    hide Common, FsAfter, UpToDate, Matches, AfterTouch, Invalidated, OneLock, BuiltAfter;
    assert OwnerLives(s, h);
    if l.p in s.procs { assert ProcInv(c, s, l.p, s.procs[l.p]); }
  }

  lemma NativeKeeps(c: Config, s: State, l: Label)
    requires Apart(c) && Inv(c, s) && Enabled(c, s, l)
    ensures TouchedAfter(s, l) <= s.clock + 1 && NativeFresh(c, FsAfter(c, s, l), TouchedAfter(s, l))
  {
    hide OneLock, Holds, Recorded, Older;
    StampPlaces(c);
    if l.p in s.procs { assert ProcInv(c, s, l.p, s.procs[l.p]); }
  }

  lemma VersionsKeep(c: Config, s: State, l: Label)
    requires Enabled(c, s, l) && Older(s.fs, s.versions)
    ensures s.versions <= VersionsAfter(s, l) && Older(FsAfter(c, s, l), VersionsAfter(s, l))
  {
  }

  lemma RecordKeeps(c: Config, s: State, l: Label, kind: Kind)
    requires Apart(c) && Enabled(c, s, l) && Older(s.fs, s.versions) && Recorded(c, s, kind)
    ensures Recorded(c, Take(c, s, l), kind)
  {
    hide OwnerAfter, ProcAfter, TouchedAfter, InTree;
    StampPlaces(c);
    VersionsKeep(c, s, l);
    NamesKeep(c, s, l, kind);
  }

  lemma NamesKeep(c: Config, s: State, l: Label, kind: Kind)
    requires Apart(c) && Enabled(c, s, l) && StampNames(c, s.fs, kind, BuiltOf(s, kind).id)
    ensures StampNames(c, FsAfter(c, s, l), kind, BuiltAfter(c, s, l, kind).id)
  {
    StampPlaces(c);
  }

  lemma StepKeeps(c: Config, s: State, l: Label)
    requires Apart(c) && Inv(c, s) && Enabled(c, s, l)
    ensures Inv(c, Take(c, s, l))
  {
    hide FsAfter, OwnerAfter, ProcAfter, VersionsAfter, TouchedAfter, BuiltAfter, Enabled;
    hide OwnerLives, NativeFresh, Older, Recorded, Shape, OneLock, Holds, AfterTouch, Invalidated;
    var t := Take(c, s, l);
    forall q | q in t.procs
      ensures ProcInv(c, t, q, t.procs[q])
    {
      if q == l.p {
        MoverHolds(c, s, l);
        MoverFresh(c, s, l);
      } else {
        OthersKeep(c, s, l, q);
      }
    }
    forall h: nat
      ensures OwnerLives(t, h)
    {
      OwnerKeeps(c, s, l, h);
    }
    NativeKeeps(c, s, l);
    VersionsKeep(c, s, l);
    RecordKeeps(c, s, l, User);
    RecordKeeps(c, s, l, Native);
  }

  // ---- whole runs ---------------------------------------------------------------------------------

  lemma {:induction false} RunKeeps(c: Config, s: State, ls: seq<Label>)
    requires Apart(c) && Inv(c, s) && Run(c, s, ls)
    ensures Inv(c, After(c, s, ls))
    decreases |ls|
  {
    hide Inv, Take, Enabled;
    if ls != [] {
      StepKeeps(c, s, ls[0]);
      RunKeeps(c, Take(c, s, ls[0]), ls[1..]);
    }
  }

  /** No run has started and nothing holds the lock; the tree and the stamps are as earlier runs left them. */
  ghost predicate Idle(c: Config, s: State) {
    s.procs == map[] && s.owner == map[] && Common(c, s)
  }

  ghost predicate AlwaysExclusive(c: Config) {
    forall s, ls :: Idle(c, s) && Run(c, s, ls) ==> Exclusive(After(c, s, ls))
  }

  /** At most one run decides, cleans, builds or stamps at a time exactly when the lock is outside the tree. */
  lemma ExclusiveIffApart(c: Config)
    ensures AlwaysExclusive(c) <==> Apart(c)
  {
    hide Common, Exclusive, Run;
    if Apart(c) {
      forall s, ls | Idle(c, s) && Run(c, s, ls)
        ensures Exclusive(After(c, s, ls))
      {
        RunKeeps(c, s, ls);
        InvIsExclusive(c, After(c, s, ls));
      }
    } else {
      LockInsideTreeFails(c);
    }
  }

  /** The lock the runs use is therefore exclusive, for every output directory. */
  lemma SharedOutputIsExclusive(c: Config)
    requires c.out != [] && c.lock == LockPath(c.out)
    ensures AlwaysExclusive(c)
  {
    LockOutsideTree(c.out);
    ExclusiveIffApart(c);
  }

  lemma {:induction false} OneMore(c: Config, s: State, ls: seq<Label>, l: Label)
    requires Run(c, s, ls) && Enabled(c, After(c, s, ls), l)
    ensures Run(c, s, ls + [l]) && After(c, s, ls + [l]) == Take(c, After(c, s, ls), l)
    decreases |ls|
  {
    hide Take, Enabled;
    if ls == [] {
      assert Run(c, Take(c, s, l), []);
      assert ([] + [l])[1..] == [];
    } else {
      OneMore(c, Take(c, s, ls[0]), ls[1..], l);
      assert (ls + [l])[1..] == ls[1..] + [l];
    }
  }

  /** Nothing but the lock file may have been added. */
  predicate OnlyLockAdded(c: Config, fs: map<Path, File>, later: map<Path, File>) {
    && (forall f :: f in fs ==> f in later && later[f] == fs[f])
    && (forall f :: f in later ==> f in fs || f == c.lock)
    && (c.lock in later && c.lock !in fs ==> later[c.lock].id == "")
  }

  /** t has process p where it says, and differs from s in nothing else but time and perhaps the lock file. */
  ghost predicate Joined(c: Config, s: State, t: State, p: nat, pr: Proc) {
    && p !in s.procs && t.procs == s.procs[p := pr] && OnlyLockAdded(c, s.fs, t.fs)
    && t.user == s.user && t.native == s.native
  }

  lemma Spawns(c: Config, s: State, p: nat, kind: Kind, id: string)
    requires p !in s.procs
    ensures var l := Spawn(p, kind, id);
      Enabled(c, s, l) && Joined(c, s, Take(c, s, l), p, Proc(kind, id, Start, 0, 0))
      && Take(c, s, l).owner == s.owner && Take(c, s, l).versions == s.versions && Take(c, s, l).fs == s.fs
  {
  }

  lemma Opens(c: Config, s: State, t: State, p: nat, pr: Proc)
    requires Joined(c, s, t, p, pr) && pr.pc.Start? && t.fs == s.fs
    ensures var u := Take(c, t, Open(p));
      var h := if c.lock in s.fs then s.fs[c.lock].version else t.versions;
      Enabled(c, t, Open(p)) && Joined(c, s, u, p, pr.(pc := Waiting, handle := h)) && u.owner == t.owner
      && u.versions == t.versions + 1
  {
  }

  lemma Acquires(c: Config, s: State, t: State, p: nat, pr: Proc)
    requires Joined(c, s, t, p, pr) && pr.pc.Waiting? && pr.handle !in t.owner
    ensures var u := Take(c, t, Acquire(p));
      Enabled(c, t, Acquire(p)) && Joined(c, s, u, p, pr.(pc := Deciding, since := t.clock + 1))
      && u.owner == t.owner[pr.handle := p] && u.versions == t.versions
  {
  }

  /** The ways in which a run can end between the start of its sub-makes and its stamp. A run that is killed during a
      sub-make is one whose sub-make fails. */
  datatype Fault = FailedClean | FailedBuild | Killed

  /** No run ends early in another way than this. */
  predicate Only(ls: seq<Label>, f: Fault) {
    forall i :: 0 <= i < |ls| ==>
      (ls[i].Clean? && !ls[i].ok ==> f == FailedClean) && (ls[i].Build? && !ls[i].ok ==> f == FailedBuild)
      && (ls[i].Die? ==> f == Killed)
  }

  /** A process started while the lock is free can come to decide. */
  lemma Arrives(c: Config, s: State, ls: seq<Label>, p: nat, kind: Kind, id: string)
    returns (more: seq<Label>, pr: Proc)
    requires Run(c, s, ls) && p !in After(c, s, ls).procs
    requires var t := After(c, s, ls); t.owner == map[] || (c.lock !in t.fs && t.versions !in t.owner)
    ensures Run(c, s, more)
    ensures var t, u := After(c, s, ls), After(c, s, more);
      Joined(c, t, u, p, pr) && pr.pc.Deciding? && pr.kind == kind && pr.id == id
      && u.owner == t.owner[pr.handle := p] && u.versions == t.versions + 1
      && (c.lock !in t.fs ==> pr.handle == t.versions)
    ensures forall f :: Only(ls, f) ==> Only(more, f)
  {
    hide Take, Enabled, Joined;
    var t := After(c, s, ls);
    var a, b, d := Spawn(p, kind, id), Open(p), Acquire(p);
    Spawns(c, t, p, kind, id);
    OneMore(c, s, ls, a);
    pr := Proc(kind, id, Start, 0, 0);
    Opens(c, t, Take(c, t, a), p, pr);
    OneMore(c, s, ls + [a], b);
    pr := pr.(pc := Waiting, handle := if c.lock in t.fs then t.fs[c.lock].version else t.versions);
    var t2 := After(c, s, ls + [a] + [b]);
    Acquires(c, t, t2, p, pr);
    OneMore(c, s, ls + [a] + [b], d);
    pr := pr.(pc := Deciding, since := t2.clock + 1);
    more := ls + [a] + [b] + [d];
  }

  const EMPTY := State(map[], map[], map[], 0, 0, 0, Built("", map[]), Built("", map[]))

  lemma FirstInvalidates(c: Config) returns (ls: seq<Label>)
    ensures Run(c, EMPTY, ls)
    ensures var s := After(c, EMPTY, ls);
      At(s, 0, Cleaning) && s.procs.Keys == {0} && s.owner == map[0 := 0] && s.versions == 1
  {
    hide BuiltAfter, StampOf, InTree;
    var pr;
    ls, pr := Arrives(c, EMPTY, [], 0, User, "a");
    var s := After(c, EMPTY, ls);
    assert s.owner == map[0 := 0];
    OneMore(c, EMPTY, ls, Decide(0, false));
    OneMore(c, EMPTY, ls + [Decide(0, false)], Invalidate(0));
    ls := ls + [Decide(0, false)] + [Invalidate(0)];
  }

  /** Run 0 takes the lock, cleans, and cleans its own lock file away. */
  lemma FirstLosesLock(c: Config) returns (ls: seq<Label>)
    requires InTree(c.lock, c.out)
    ensures Run(c, EMPTY, ls)
    ensures var s := After(c, EMPTY, ls);
      At(s, 0, Building) && s.procs.Keys == {0} && s.owner == map[0 := 0] && s.versions == 1 && c.lock !in s.fs
  {
    hide BuiltAfter, StampOf, InTree;
    ls := FirstInvalidates(c);
    var s := After(c, EMPTY, ls);
    var l := Clean(0, true, set f | f in s.fs && InTree(f, c.out));
    OneMore(c, EMPTY, ls, l);
    ls := ls + [l];
  }

  /** Run 1 then locks a new file of the same name while run 0 is still building. */
  lemma LockInsideTreeFails(c: Config)
    requires InTree(c.lock, c.out)
    ensures !AlwaysExclusive(c)
  {
    hide Take, Enabled;
    var ls := FirstLosesLock(c);
    var more, pr := Arrives(c, EMPTY, ls, 1, User, "a");
    var t := After(c, EMPTY, more);
    assert At(t, 0, Building) && At(t, 1, Deciding);
    assert !Exclusive(t);
    assert Idle(c, EMPTY);
  }

  /** A native stamp that exists was written by a run that had the lock after every change a user rebuild made. */
  lemma NativeStampIsFresh(c: Config, s: State, ls: seq<Label>)
    requires c.out != [] && c.lock == LockPath(c.out) && Idle(c, s) && Run(c, s, ls)
    ensures var t := After(c, s, ls); NativeFresh(c, t.fs, t.touched)
  {
    hide Run;
    LockOutsideTree(c.out);
    RunKeeps(c, s, ls);
  }

  /** What a run that holds the lock does next. */
  function NextOf(p: nat, pc: Pc, versions: nat): Label
    requires Critical(pc)
  {
    match pc
    case Deciding => Decide(p, false)
    case Invalidating(_) => Invalidate(p)
    case Cleaning => Clean(p, false, {})
    case Building => Build(p, false, {}, map[], versions)
    case Stamping => Stamp(p)
    case Releasing(_) => Release(p)
  }

  ghost predicate CanGoOn(c: Config, s: State) {
    exists l: Label :: !l.Spawn? && !l.Die? && Enabled(c, s, l)
  }

  /** Some run can always go on: the holder of the lock, or else any run that waits for it. */
  lemma NeverStuck(c: Config, s: State, p: nat)
    requires Inv(c, s) && p in s.procs && !s.procs[p].pc.Done?
    ensures CanGoOn(c, s)
  {
    hide Common;
    var pr := s.procs[p];
    if pr.pc.Start? {
      assert Enabled(c, s, Open(p));
    } else if Critical(pr.pc) {
      assert Enabled(c, s, NextOf(p, pr.pc, s.versions));
    } else if pr.handle !in s.owner {
      assert Enabled(c, s, Acquire(p));
    } else {
      assert OwnerLives(s, pr.handle);
      var q := s.owner[pr.handle];
      assert Enabled(c, s, NextOf(q, s.procs[q].pc, s.versions));
    }
  }

  // ---- what "up to date" is worth ------------------------------------------------------------------

  /** Every file of the last stamped build is still there, as it was stamped. */
  predicate Intact(s: State, kind: Kind) {
    forall f :: f in BuiltOf(s, kind).files ==> f in s.fs && s.fs[f] == BuiltOf(s, kind).files[f]
  }

  /** The sub-make of this step removes and rewrites none of these files. */
  predicate SparesStep(l: Label, files: set<Path>) {
    match l
    case Clean(_, _, gone) => gone !! files
    case Build(_, _, gone, made, _) => gone !! files && made.Keys !! files
    case _ => true
  }

  predicate Spares(ls: seq<Label>, files: set<Path>) {
    forall i :: 0 <= i < |ls| ==> SparesStep(ls[i], files)
  }

  /** No run of this kind reaches its stamp. */
  ghost predicate NoneFinishes(c: Config, s: State, ls: seq<Label>, kind: Kind)
    requires Run(c, s, ls)
    decreases |ls|
  {
    ls == [] || (!Finishes(s, ls[0], kind) && NoneFinishes(c, Take(c, s, ls[0]), ls[1..], kind))
  }

  /** Right after a stamp everything is as stamped. */
  lemma StampIsIntact(c: Config, s: State, p: nat)
    requires Enabled(c, s, Stamp(p))
    ensures var kind := s.procs[p].kind; Intact(Take(c, s, Stamp(p)), kind)
  {
    StampPlaces(c);
  }

  /** The files of a stamped build are neither stamps nor the lock. */
  lemma RecordedFile(c: Config, s: State, kind: Kind, f: Path)
    requires Common(c, s) && f in BuiltOf(s, kind).files
    ensures Artefact(c, f) && BuiltOf(s, kind).files[f].version < s.versions
  {
  }

  /** A step that spares the file leaves it as it is. */
  lemma SparedStays(c: Config, s: State, l: Label, f: Path)
    requires Enabled(c, s, l) && Artefact(c, f) && SparesStep(l, {f})
    ensures f in FsAfter(c, s, l) <==> f in s.fs
    ensures f in s.fs ==> FsAfter(c, s, l)[f] == s.fs[f]
  {
    hide InTree;
  }

  /** A step that does not spare a file leaves it missing or newer than every version before. */
  lemma HitIsLost(c: Config, s: State, l: Label, f: Path)
    requires Enabled(c, s, l) && !SparesStep(l, {f})
    ensures f in FsAfter(c, s, l) ==> FsAfter(c, s, l)[f].version >= s.versions
  {
  }

  ghost predicate Lost(s: State, kind: Kind, f: Path) {
    f in BuiltOf(s, kind).files && (f !in s.fs || s.fs[f] != BuiltOf(s, kind).files[f])
  }

  /** A step without a new stamp loses what it hits and brings nothing back. */
  lemma StepLoses(c: Config, s: State, l: Label, kind: Kind, f: Path)
    requires Inv(c, s) && Enabled(c, s, l) && !Finishes(s, l, kind) && f in BuiltOf(s, kind).files
    ensures Lost(Take(c, s, l), kind, f) <==> Lost(s, kind, f) || !SparesStep(l, {f})
  {
    hide ProcInv, OwnerLives, FsAfter, OwnerAfter, ProcAfter, VersionsAfter, TouchedAfter, Common, Artefact, Enabled;
    RecordedFile(c, s, kind, f);
    if SparesStep(l, {f}) { SparedStays(c, s, l, f); } else { HitIsLost(c, s, l, f); }
  }

  lemma SparesOne(l: Label, files: set<Path>, f: Path)
    requires f in files && SparesStep(l, files)
    ensures SparesStep(l, {f})
  {
  }

  lemma SparesAll(l: Label, files: set<Path>)
    requires forall f :: f in files ==> SparesStep(l, {f})
    ensures SparesStep(l, files)
  {
    match l
    case Clean(_, _, gone) => forall f | f in files ensures f !in gone { assert SparesStep(l, {f}); assert f in {f}; }
    case Build(_, _, gone, made, _) =>
      forall f | f in files ensures f !in gone && f !in made { assert SparesStep(l, {f}); assert f in {f}; }
    case _ =>
  }

  lemma StepIntact(c: Config, s: State, l: Label, kind: Kind)
    requires Inv(c, s) && Enabled(c, s, l) && !Finishes(s, l, kind)
    ensures BuiltOf(Take(c, s, l), kind) == BuiltOf(s, kind)
    ensures Intact(Take(c, s, l), kind) <==> Intact(s, kind) && SparesStep(l, BuiltOf(s, kind).files.Keys)
  {
    hide Inv, Enabled, FsAfter, OwnerAfter, ProcAfter, VersionsAfter, TouchedAfter, SparesStep;
    var files := BuiltOf(s, kind).files;
    forall f | f in files
      ensures Lost(Take(c, s, l), kind, f) <==> Lost(s, kind, f) || !SparesStep(l, {f})
    {
      StepLoses(c, s, l, kind, f);
    }
    if SparesStep(l, files.Keys) {
      forall f | f in files ensures SparesStep(l, {f}) { SparesOne(l, files.Keys, f); }
    } else if forall f :: f in files.Keys ==> SparesStep(l, {f}) {
      SparesAll(l, files.Keys);
    }
    assert forall f :: f in files ==> (Lost(s, kind, f) <==> !(f in s.fs && s.fs[f] == files[f]));
  }

  /** As long as no run of the kind stamps anew, its build is intact if and only if no sub-make of any run since has
      removed or rewritten one of its files. */
  lemma {:induction false} IntactIff(c: Config, s: State, ls: seq<Label>, kind: Kind)
    requires Apart(c) && Inv(c, s) && Run(c, s, ls) && NoneFinishes(c, s, ls, kind)
    ensures BuiltOf(After(c, s, ls), kind) == BuiltOf(s, kind)
    ensures Intact(After(c, s, ls), kind) <==> Intact(s, kind) && Spares(ls, BuiltOf(s, kind).files.Keys)
    decreases |ls|
  {
    hide Inv, Enabled, Take, Intact, SparesStep, BuiltOf, Finishes;
    if ls != [] {
      StepKeeps(c, s, ls[0]);
      StepIntact(c, s, ls[0], kind);
      IntactIff(c, Take(c, s, ls[0]), ls[1..], kind);
      SparesFirst(ls, BuiltOf(s, kind).files.Keys);
    }
  }

  lemma SparesFirst(ls: seq<Label>, files: set<Path>)
    requires ls != []
    ensures Spares(ls, files) <==> SparesStep(ls[0], files) && Spares(ls[1..], files)
  {
    hide SparesStep;
    if SparesStep(ls[0], files) && Spares(ls[1..], files) {
      forall i | 0 <= i < |ls| ensures SparesStep(ls[i], files) {
        if i > 0 { assert ls[i] == ls[1..][i - 1]; }
      }
    }
  }

  /** The answer is right: the last stamped build is the one asked for, and it is intact. */
  predicate Right(s: State, pr: Proc) {
    BuiltOf(s, pr.kind).id == pr.id && Intact(s, pr.kind)
  }

  /** A run that answers "up to date" is right if and only if no sub-make since the last stamp of its kind has removed
      or rewritten a file of the stamped build. */
  lemma AnswerIff(c: Config, s: State, ls: seq<Label>, p: nat)
    requires Apart(c) && Inv(c, s) && Run(c, s, ls)
    requires var t := After(c, s, ls); At(t, p, Deciding) && UpToDate(c, t.fs, t.procs[p], false)
    requires var kind := After(c, s, ls).procs[p].kind; Intact(s, kind) && NoneFinishes(c, s, ls, kind)
    ensures var t := After(c, s, ls);
      Right(t, t.procs[p]) <==> Spares(ls, BuiltOf(s, t.procs[p].kind).files.Keys)
  {
    hide Intact, Spares, Tested, Run, NoneFinishes, After, NativeFresh, Older;
    var t := After(c, s, ls);
    var kind := t.procs[p].kind;
    RunKeeps(c, s, ls);
    IntactIff(c, s, ls, kind);
    assert Recorded(c, t, kind);
  }

  /** A native answer also relies on a stamp that no user rebuild has gone behind. */
  lemma NativeAnswer(c: Config, s: State, p: nat)
    requires Inv(c, s) && At(s, p, Deciding) && s.procs[p].kind.Native? && UpToDate(c, s.fs, s.procs[p], false)
    ensures StampOf(c, Native) in s.fs && s.fs[StampOf(c, Native)].id == s.procs[p].id == s.native.id
    ensures s.touched < s.fs[StampOf(c, Native)].since
  {
    hide Tested, Older;
    assert Recorded(c, s, Native) && NativeFresh(c, s.fs, s.touched);
  }

  // ---- runs that end early -------------------------------------------------------------------------------

  predicate Ends(s: State, l: Label, f: Fault) {
    match f
    case FailedClean => l.Clean? && !l.ok
    case FailedBuild => l.Build? && !l.ok
    case Killed => l.Die? && At(s, l.p, Stamping)
  }

  /** A run ends early and the stamp of its kind, an older one, is left in place. */
  ghost predicate Faulty(c: Config, s: State, l: Label, f: Fault)
    requires Enabled(c, s, l)
  {
    Ends(s, l, f) && StampOf(c, s.procs[l.p].kind) in FsAfter(c, s, l)
  }

  /** The run has no other faults than these. */
  ghost predicate Within(c: Config, s: State, ls: seq<Label>, faults: set<Fault>)
    requires Run(c, s, ls)
    decreases |ls|
  {
    ls == []
    || ((forall f :: Faulty(c, s, ls[0], f) ==> f in faults) && Within(c, Take(c, s, ls[0]), ls[1..], faults))
  }

  ghost predicate AboutToStamp(s: State, kind: Kind) {
    exists p :: At(s, p, Stamping) && s.procs[p].kind == kind
  }

  /** A stamp that is there stands for an intact build. */
  predicate Honest(c: Config, s: State, kind: Kind) {
    StampOf(c, kind) in s.fs ==> Intact(s, kind)
  }

  /** Or it is about to be replaced. */
  ghost predicate Good(c: Config, s: State, kind: Kind) {
    Honest(c, s, kind) || AboutToStamp(s, kind)
  }

  /** Only a stamp step makes a stamp. */
  lemma NoNewStamp(c: Config, s: State, l: Label, kind: Kind)
    requires Apart(c) && Enabled(c, s, l) && !Finishes(s, l, kind) && StampOf(c, kind) in FsAfter(c, s, l)
    ensures StampOf(c, kind) in s.fs
  {
    StampPlaces(c);
  }

  /** Two processes cannot both be past the lock. */
  lemma StampingStays(c: Config, s: State, l: Label, q: nat)
    requires Inv(c, s) && Enabled(c, s, l) && At(s, q, Stamping) && q != l.p
    ensures At(Take(c, s, l), q, Stamping) && Take(c, s, l).procs[q].kind == s.procs[q].kind
  {
    hide FsAfter, OwnerAfter, ProcAfter;
  }

  /** A sub-make that succeeds leads to a stamp or removes the old one; one of the other kind leaves the build alone or
      finds its stamp removed. */
  lemma SubmakeGood(c: Config, s: State, l: Label, kind: Kind)
    requires Apart(c) && Inv(c, s) && Enabled(c, s, l) && (l.Clean? || l.Build?)
    requires forall f :: !Faulty(c, s, l, f)
    requires StampOf(c, kind) in FsAfter(c, s, l) && !SparesStep(l, BuiltOf(s, kind).files.Keys)
    ensures AboutToStamp(Take(c, s, l), kind)
  {
    hide Common, OneLock, Holds, OwnerAfter, AfterTouch, Intact;
    assert ProcInv(c, s, l.p, s.procs[l.p]);
    NoNewStamp(c, s, l, kind);
    StampPlaces(c);
    assert !Faulty(c, s, l, FailedClean) && !Faulty(c, s, l, FailedBuild);
    if l.Build? {
      if s.procs[l.p].kind != kind { NativeSpares(c, s, l); }
      assert At(Take(c, s, l), l.p, Stamping);
    }
  }

  /** A native sub-make does not touch a user build. */
  lemma NativeSpares(c: Config, s: State, l: Label)
    requires Inv(c, s) && Enabled(c, s, l) && l.Build? && s.procs[l.p].kind.Native?
    ensures SparesStep(l, BuiltOf(s, User).files.Keys)
  {
    hide ProcInv, OwnerLives, NativeFresh, Older, StampNames;
    assert Recorded(c, s, User);
  }

  lemma StepGood(c: Config, s: State, l: Label, kind: Kind)
    requires Apart(c) && Inv(c, s) && Enabled(c, s, l) && Good(c, s, kind) && forall f :: !Faulty(c, s, l, f)
    ensures Good(c, Take(c, s, l), kind)
  {
    hide Inv, Enabled, FsAfter, OwnerAfter, ProcAfter, Intact, SparesStep;
    if Finishes(s, l, kind) {
      StampIsIntact(c, s, l.p);
    } else if StampOf(c, kind) in FsAfter(c, s, l) {
      NoNewStamp(c, s, l, kind);
      StepIntact(c, s, l, kind);
      if AboutToStamp(s, kind) {
        var q :| At(s, q, Stamping) && s.procs[q].kind == kind;
        if q == l.p { StampingEnds(c, s, l); } else { StampingStays(c, s, l, q); }
      } else if !SparesStep(l, BuiltOf(s, kind).files.Keys) {
        OnlySubmakesHit(l, BuiltOf(s, kind).files.Keys);
        SubmakeGood(c, s, l, kind);
      }
    }
  }

  lemma OnlySubmakesHit(l: Label, files: set<Path>)
    requires !SparesStep(l, files)
    ensures l.Clean? || l.Build?
  {
  }

  /** Before its stamp a run either stamps or is killed. */
  lemma StampingEnds(c: Config, s: State, l: Label)
    requires Enabled(c, s, l) && At(s, l.p, Stamping) && forall f :: !Faulty(c, s, l, f)
    ensures Finishes(s, l, s.procs[l.p].kind) || StampOf(c, s.procs[l.p].kind) !in FsAfter(c, s, l)
  {
    assert !Faulty(c, s, l, Killed);
  }

  lemma {:induction false} RunGood(c: Config, s: State, ls: seq<Label>, kind: Kind)
    requires Apart(c) && Inv(c, s) && Run(c, s, ls) && Within(c, s, ls, {}) && Good(c, s, kind)
    ensures Good(c, After(c, s, ls), kind)
    decreases |ls|
  {
    hide Inv, Enabled, Take, Good, Faulty;
    if ls != [] {
      StepKeeps(c, s, ls[0]);
      StepGood(c, s, ls[0], kind);
      RunGood(c, Take(c, s, ls[0]), ls[1..], kind);
    }
  }

  /** The run that decides is the only one past the lock, so its stamp is not about to be replaced. */
  lemma DecidesAlone(c: Config, s: State, p: nat)
    requires Inv(c, s) && At(s, p, Deciding)
    ensures forall kind :: !AboutToStamp(s, kind)
  {
    hide Inv;
    InvIsExclusive(c, s);
  }

  /** What the lock and the removal of the native stamp are for: over every interleaving, if no run that ended early has
      left an old stamp of its kind behind, every answer "up to date" is right. */
  lemma FaultlessIsRight(c: Config, s: State, ls: seq<Label>, p: nat)
    requires Apart(c) && Inv(c, s) && Good(c, s, User) && Good(c, s, Native) && Run(c, s, ls) && Within(c, s, ls, {})
    requires var t := After(c, s, ls); At(t, p, Deciding) && UpToDate(c, t.fs, t.procs[p], false)
    ensures var t := After(c, s, ls); Right(t, t.procs[p])
  {
    hide Intact, Tested, Run, Within, After, NativeFresh, Older, AboutToStamp, ProcInv, OwnerLives;
    var t := After(c, s, ls);
    RunKeeps(c, s, ls);
    RunGood(c, s, ls, t.procs[p].kind);
    DecidesAlone(c, t, p);
    assert Recorded(c, t, t.procs[p].kind);
  }

  // ---- answers that are wrong ---------------------------------------------------------------------------

  function Init(c: Config): Path { c.out + ["init"] }
  function Mksh(c: Config): Path { c.out + ["mksh"] }
  function Tool(c: Config): Path { c.out + ["tool"] }

  /** A finished user build for "a" of three files, two of which the decision looks for. */
  function Finished(c: Config): State {
    var files := map[Init(c) := File(1, "", 0), Mksh(c) := File(2, "", 0), Tool(c) := File(3, "", 0)];
    State(files[StampOf(c, User) := File(0, "a", 0)], map[], map[], 0, 4, 0, Built("a", files), Built("", map[]))
  }

  lemma FilePlaces(c: Config)
    requires Apart(c)
    ensures Artefact(c, Init(c)) && Artefact(c, Mksh(c)) && Artefact(c, Tool(c))
    ensures Tool(c) != Init(c) && Tool(c) != Mksh(c)
  {
    var n := |c.out|;
    assert Init(c)[n] == "init" && Mksh(c)[n] == "mksh" && Tool(c)[n] == "tool";
    assert StampOf(c, User)[n] == ".build-id" && StampOf(c, Native)[n] == ".native-build-id";
  }

  lemma FinishedIsIdle(c: Config)
    requires Apart(c) && {Init(c), Mksh(c), Tool(c)} !! c.natives
    ensures Idle(c, Finished(c)) && Intact(Finished(c), User)
  {
    FilePlaces(c);
    StampPlaces(c);
  }

  /** The stamp and the two tested files are there. */
  predicate LooksDone(c: Config, fs: map<Path, File>) {
    StampOf(c, User) in fs && fs[StampOf(c, User)].id == "a" && Init(c) in fs && Mksh(c) in fs
  }

  /** What a failed clean leaves: nothing held, the stamp and the tested files there, the third file gone. */
  predicate HalfCleaned(c: Config, s: State) {
    s.owner == map[] && s.procs.Keys == {0} && LooksDone(c, s.fs) && Tool(c) !in s.fs && s.user == Finished(c).user
  }

  /** Run 0, for "b", holds the lock over a tree that looks done for "a". */
  predicate Moment(c: Config, s: State, pc: Pc) {
    At(s, 0, pc) && s.procs.Keys == {0} && s.procs[0].kind == User && s.procs[0].id == "b"
    && (forall h :: h in s.owner ==> s.owner[h] == 0) && LooksDone(c, s.fs) && s.user == Finished(c).user
  }

  lemma MomentDecides(c: Config, s: State)
    requires Moment(c, s, Deciding)
    ensures Enabled(c, s, Decide(0, false)) && Moment(c, Take(c, s, Decide(0, false)), Invalidating(true))
  {
    hide StampOf, Init, Mksh, Tool, Finished;
  }

  lemma MomentInvalidates(c: Config, s: State)
    requires Apart(c) && Moment(c, s, Invalidating(true))
    ensures Enabled(c, s, Invalidate(0)) && Moment(c, Take(c, s, Invalidate(0)), Cleaning)
  {
    FilePlaces(c);
    StampPlaces(c);
    hide StampOf, Init, Mksh, Tool, Finished, InTree;
  }

  lemma MomentCleans(c: Config, s: State)
    requires Apart(c) && Moment(c, s, Cleaning)
    ensures var l := Clean(0, false, {Tool(c)});
      Enabled(c, s, l) && Moment(c, Take(c, s, l), Releasing(false)) && Tool(c) !in Take(c, s, l).fs
  {
    FilePlaces(c);
    StampPlaces(c);
    hide StampOf, Init, Mksh, Tool, Finished, InTree;
  }

  lemma MomentReleases(c: Config, s: State)
    requires Moment(c, s, Releasing(false)) && Tool(c) !in s.fs
    ensures Enabled(c, s, Release(0)) && HalfCleaned(c, Take(c, s, Release(0)))
  {
    hide StampOf, Init, Mksh, Tool, Finished;
  }

  /** A run for "b" whose clean fails after removing the third file. */
  lemma CleanFails(c: Config) returns (ls: seq<Label>)
    requires Apart(c)
    ensures Run(c, Finished(c), ls) && HalfCleaned(c, After(c, Finished(c), ls)) && Only(ls, FailedClean)
  {
    hide Take, Enabled, Moment, HalfCleaned;
    var z := Finished(c);
    var pr;
    assert Only([], FailedClean);
    ls, pr := Arrives(c, z, [], 0, User, "b");
    FinishedMoment(c, After(c, z, ls), pr);
    MomentDecides(c, After(c, z, ls));
    OneMore(c, z, ls, Decide(0, false));
    ls := ls + [Decide(0, false)];
    MomentInvalidates(c, After(c, z, ls));
    OneMore(c, z, ls, Invalidate(0));
    ls := ls + [Invalidate(0)];
    MomentCleans(c, After(c, z, ls));
    OneMore(c, z, ls, Clean(0, false, {Tool(c)}));
    ls := ls + [Clean(0, false, {Tool(c)})];
    MomentReleases(c, After(c, z, ls));
    OneMore(c, z, ls, Release(0));
    ls := ls + [Release(0)];
  }

  lemma FinishedMoment(c: Config, t: State, pr: Proc)
    requires Joined(c, Finished(c), t, 0, pr) && pr.pc.Deciding? && pr.kind == User && pr.id == "b"
    requires t.owner == Finished(c).owner[pr.handle := 0]
    ensures Moment(c, t, Deciding)
  {
  }

  lemma AnswersWrongly(c: Config, s: State, t: State, pr: Proc)
    requires Apart(c) && HalfCleaned(c, s) && Joined(c, s, t, 1, pr) && pr.pc.Deciding?
    requires pr.kind == User && pr.id == "a"
    ensures At(t, 1, Deciding) && UpToDate(c, t.fs, t.procs[1], false) && !Right(t, t.procs[1])
  {
    FilePlaces(c);
    assert Tool(c) in t.user.files;
    hide StampOf, Finished, InTree;
  }

  /** The next run for "a" then answers "up to date", and a file of the build is missing. */
  lemma FailedCleanMisleads(c: Config) returns (ls: seq<Label>)
    requires Apart(c) && {Init(c), Mksh(c), Tool(c)} !! c.natives
    ensures Idle(c, Finished(c)) && Intact(Finished(c), User) && Run(c, Finished(c), ls) && Only(ls, FailedClean)
    ensures var t := After(c, Finished(c), ls);
      At(t, 1, Deciding) && UpToDate(c, t.fs, t.procs[1], false) && !Right(t, t.procs[1])
  {
    hide Take, Enabled, UpToDate, Right, Idle, Intact, Joined;
    FinishedIsIdle(c);
    ls := CleanFails(c);
    var pr;
    var s := After(c, Finished(c), ls);
    ls, pr := Arrives(c, Finished(c), ls, 1, User, "a");
    AnswersWrongly(c, s, After(c, Finished(c), ls), pr);
  }

  // ---- the same for native runs ---------------------------------------------------------------------------

  /** A finished native build for "a" of the one binary a native run looks for. */
  function NativeFinished(c: Config, bin: Path): State {
    var files := map[bin := File(1, "", 0)];
    State(files[StampOf(c, Native) := File(0, "a", 1)], map[], map[], 1, 2, 0, Built("", map[]), Built("a", files))
  }

  predicate OneBinary(c: Config, bin: Path) {
    Apart(c) && Artefact(c, bin) && c.natives == {bin} && c.binaries == {bin}
  }

  lemma NativeFinishedIsIdle(c: Config, bin: Path)
    requires OneBinary(c, bin)
    ensures Idle(c, NativeFinished(c, bin)) && Intact(NativeFinished(c, bin), Native)
  {
    StampPlaces(c);
  }

  predicate NativeLooksDone(c: Config, fs: map<Path, File>, bin: Path) {
    StampOf(c, Native) in fs && fs[StampOf(c, Native)].id == "a" && bin in fs
  }

  predicate NativeMoment(c: Config, s: State, pc: Pc, bin: Path) {
    At(s, 0, pc) && s.procs.Keys == {0} && s.procs[0].kind == Native && s.procs[0].id == "b"
    && (forall h :: h in s.owner ==> s.owner[h] == 0) && NativeLooksDone(c, s.fs, bin)
    && s.native == NativeFinished(c, bin).native && s.versions >= 2
  }

  lemma NativeDecides(c: Config, s: State, bin: Path)
    requires NativeMoment(c, s, Deciding, bin)
    ensures Enabled(c, s, Decide(0, false)) && NativeMoment(c, Take(c, s, Decide(0, false)), Building, bin)
  {
    hide StampOf, NativeFinished;
  }

  function Rewrite(s: State, bin: Path, ok: bool): Label {
    Build(0, ok, {}, map[bin := File(s.versions, "", 0)], s.versions + 1)
  }

  lemma NativeRewrites(c: Config, s: State, bin: Path, ok: bool)
    requires OneBinary(c, bin) && NativeMoment(c, s, Building, bin)
    ensures var l := Rewrite(s, bin, ok); var t := Take(c, s, l);
      Enabled(c, s, l) && NativeMoment(c, t, if ok then Stamping else Releasing(false), bin) && t.fs[bin].version >= 2
  {
    hide StampOf, NativeFinished, InTree;
  }

  /** Giving the lock back after a failed sub-make, or being killed after one that did not fail. */
  function Leave(ok: bool): Label {
    if ok then Die(0) else Release(0)
  }

  lemma NativeLeaves(c: Config, s: State, bin: Path, ok: bool)
    requires NativeMoment(c, s, if ok then Stamping else Releasing(false), bin) && s.fs[bin].version >= 2
    ensures Enabled(c, s, Leave(ok)) && HalfRebuilt(c, Take(c, s, Leave(ok)), bin)
  {
    hide StampOf, NativeFinished;
  }

  /** What a native run leaves that ends between its sub-make and its stamp: nothing held, the old stamp, and a
      rewritten binary. */
  predicate HalfRebuilt(c: Config, s: State, bin: Path) {
    s.owner == map[] && s.procs.Keys == {0} && NativeLooksDone(c, s.fs, bin) && s.fs[bin].version >= 2
    && s.native == NativeFinished(c, bin).native
  }

  lemma NativeFinishedMoment(c: Config, t: State, pr: Proc, bin: Path)
    requires OneBinary(c, bin) && Joined(c, NativeFinished(c, bin), t, 0, pr)
    requires pr.pc.Deciding? && pr.kind == Native && pr.id == "b" && t.versions >= 2
    requires t.owner == NativeFinished(c, bin).owner[pr.handle := 0]
    ensures NativeMoment(c, t, Deciding, bin)
  {
  }

  /** A native run for "b" whose sub-make fails after rewriting the binary, or that is killed before its stamp. */
  lemma BuildFails(c: Config, bin: Path, ok: bool) returns (ls: seq<Label>)
    requires OneBinary(c, bin)
    ensures Run(c, NativeFinished(c, bin), ls) && HalfRebuilt(c, After(c, NativeFinished(c, bin), ls), bin)
    ensures Only(ls, if ok then Killed else FailedBuild)
  {
    hide Take, Enabled, NativeMoment, HalfRebuilt;
    var z := NativeFinished(c, bin);
    var pr;
    assert Only([], if ok then Killed else FailedBuild);
    ls, pr := Arrives(c, z, [], 0, Native, "b");
    NativeFinishedMoment(c, After(c, z, ls), pr, bin);
    NativeDecides(c, After(c, z, ls), bin);
    OneMore(c, z, ls, Decide(0, false));
    ls := ls + [Decide(0, false)];
    var l := Rewrite(After(c, z, ls), bin, ok);
    NativeRewrites(c, After(c, z, ls), bin, ok);
    OneMore(c, z, ls, l);
    ls := ls + [l];
    NativeLeaves(c, After(c, z, ls), bin, ok);
    OneMore(c, z, ls, Leave(ok));
    ls := ls + [Leave(ok)];
  }

  lemma NativeAnswersWrongly(c: Config, s: State, t: State, pr: Proc, bin: Path)
    requires OneBinary(c, bin) && HalfRebuilt(c, s, bin) && Joined(c, s, t, 1, pr)
    requires pr.pc.Deciding? && pr.kind == Native && pr.id == "a"
    ensures At(t, 1, Deciding) && UpToDate(c, t.fs, t.procs[1], false) && !Right(t, t.procs[1])
  {
    assert bin in t.native.files && t.native.files[bin].version == 1;
  }

  /** The next native run for "a" then answers "up to date", over a binary of "b". */
  lemma FailedBuildMisleads(c: Config, bin: Path, ok: bool) returns (ls: seq<Label>)
    requires OneBinary(c, bin)
    ensures Idle(c, NativeFinished(c, bin)) && Intact(NativeFinished(c, bin), Native)
      && Run(c, NativeFinished(c, bin), ls) && Only(ls, if ok then Killed else FailedBuild)
    ensures var t := After(c, NativeFinished(c, bin), ls);
      At(t, 1, Deciding) && UpToDate(c, t.fs, t.procs[1], false) && !Right(t, t.procs[1])
  {
    hide Take, Enabled, UpToDate, Right, Idle, Intact, Joined, Only;
    NativeFinishedIsIdle(c, bin);
    ls := BuildFails(c, bin, ok);
    var pr;
    var s := After(c, NativeFinished(c, bin), ls);
    ls, pr := Arrives(c, NativeFinished(c, bin), ls, 1, Native, "a");
    NativeAnswersWrongly(c, s, After(c, NativeFinished(c, bin), ls), pr, bin);
  }

  // ---- exactly when every answer is right --------------------------------------------------------------------

  /** From every tree whose stamps stand for intact builds, over every interleaving with these faults only. */
  ghost predicate AnswersRight(c: Config, faults: set<Fault>) {
    forall s, ls, p :: Idle(c, s) && Honest(c, s, User) && Honest(c, s, Native) && Answers(c, s, ls, p, faults) ==>
      RightAfter(c, s, ls, p)
  }

  ghost predicate Answers(c: Config, s: State, ls: seq<Label>, p: nat, faults: set<Fault>) {
    Run(c, s, ls) && Within(c, s, ls, faults)
    && var t := After(c, s, ls); At(t, p, Deciding) && UpToDate(c, t.fs, t.procs[p], false)
  }

  ghost predicate RightAfter(c: Config, s: State, ls: seq<Label>, p: nat) {
    Run(c, s, ls) && var t := After(c, s, ls); p in t.procs && Right(t, t.procs[p])
  }

  lemma {:induction false} OnlyIsWithin(c: Config, s: State, ls: seq<Label>, f: Fault, faults: set<Fault>)
    requires Run(c, s, ls) && Only(ls, f) && f in faults
    ensures Within(c, s, ls, faults)
    decreases |ls|
  {
    hide Enabled, Take, FsAfter;
    if ls != [] {
      forall h | Faulty(c, s, ls[0], h) ensures h == f { assert Ends(s, ls[0], h); }
      OnlyIsWithin(c, Take(c, s, ls[0]), ls[1..], f, faults);
    }
  }

  /** Whichever of the three faults can happen, it misleads some run. */
  lemma FaultMisleads(c: Config, bin: Path, f: Fault, faults: set<Fault>)
    requires OneBinary(c, bin) && {Init(c), Mksh(c), Tool(c)} !! c.natives && f in faults
    ensures !AnswersRight(c, faults)
  {
    hide Idle, Intact, Run, Within, UpToDate, Right, Only;
    StampPlaces(c);
    FilePlaces(c);
    var ls;
    if f == FailedClean {
      ls := FailedCleanMisleads(c);
      OnlyIsWithin(c, Finished(c), ls, f, faults);
      assert Honest(c, Finished(c), Native);
      assert Answers(c, Finished(c), ls, 1, faults) && !RightAfter(c, Finished(c), ls, 1);
    } else {
      ls := FailedBuildMisleads(c, bin, f == Killed);
      var z := NativeFinished(c, bin);
      OnlyIsWithin(c, z, ls, f, faults);
      assert Honest(c, z, User);
      assert Answers(c, z, ls, 1, faults) && !RightAfter(c, z, ls, 1);
    }
  }

  lemma IdleIsInv(c: Config, s: State)
    requires Idle(c, s)
    ensures Inv(c, s)
  {
    hide Common;
  }

  /** Every answer "up to date" is right if and only if no run ends early with an old stamp of its kind in place: not by
      a failing clean, not by a failing build, and not by being killed between its sub-make and its stamp. */
  lemma AnswersRightIff(c: Config, bin: Path, faults: set<Fault>)
    requires OneBinary(c, bin) && {Init(c), Mksh(c), Tool(c)} !! c.natives
    ensures AnswersRight(c, faults) <==> faults == {}
  {
    hide Idle, Run, Within, UpToDate, Right, Honest;
    if faults == {} {
      forall s, ls, p | Idle(c, s) && Honest(c, s, User) && Honest(c, s, Native) && Answers(c, s, ls, p, faults)
        ensures RightAfter(c, s, ls, p)
      {
        IdleIsInv(c, s);
        FaultlessIsRight(c, s, ls, p);
      }
    } else {
      var f :| f in faults;
      FaultMisleads(c, bin, f, faults);
    }
  }
}
