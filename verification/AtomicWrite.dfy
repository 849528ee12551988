/** WriteLockfile as a protocol of file effects: any number of writers, any interleaving, a failure at any
    effect, the deferred removal included, and a crash at any point. A crash loses whatever was not synced and may
    undo any directory change since the last one, name by name. */
module AtomicWrite {
  import opened Wrappers

  type Name = string
  type Inode = nat

  datatype File = File(content: string, synced: bool)

  datatype PC =
    | Idle
    | Writing(tmp: Name, ino: Inode, done: nat) // temporary file created, so many characters written
    | Written(tmp: Name, ino: Inode)
    | Synced(tmp: Name, ino: Inode)
    | Closed(tmp: Name, ino: Inode)
    | Chmodded(tmp: Name, ino: Inode)
    | Deferred(tmp: Name, ino: Inode, ok: bool) // the function is about to return: close and remove remain
    | Returned(ok: bool, left: Option<Name>, removed: bool)
    | Dead(renamed: bool)                       // a process of before the last crash

  /** Which content each writer wants to install, where, and what the target held at first. */
  datatype Config = Config(target: Name, data: seq<string>, initial: Option<string>)

  datatype State = State(
    dir: map<Name, Inode>,
    files: map<Inode, File>,
    past: set<Option<Inode>>, // what the target may refer to after a crash
    used: set<Name>,          // temporary names ever taken
    pcs: seq<PC>,
    last: Option<nat>         // the writer whose rename was the latest since the last crash
  )

  datatype Effect = Create(name: Name) | Put(n: nat) | Sync | Close | Chmod | Rename | CleanUp | RemoveFails | Fail

  datatype Action = Do(writer: nat, effect: Effect) | Crash(survivors: map<Name, Inode>, torn: map<Inode, string>)

  function TargetOf(c: Config, dir: map<Name, Inode>): Option<Inode> {
    if c.target in dir then Some(dir[c.target]) else None
  }

  predicate CanDo(c: Config, s: State, w: nat, e: Effect)
    requires w < |s.pcs| && w < |c.data|
  {
    match (s.pcs[w], e)
    case (Idle, Create(name)) => name !in s.used && name !in s.dir && name != c.target
    case (Idle, Fail) => true
    case (Writing(_, _, done), Put(n)) => (n > 0 || done == |c.data[w]|) && done + n <= |c.data[w]|
    case (Writing(_, _, _), Fail) => true
    case (Written(_, _), Sync) => true
    case (Written(_, _), Fail) => true
    case (Synced(_, _), Close) => true
    case (Synced(_, _), Fail) => true
    case (Closed(_, _), Chmod) => true
    case (Closed(_, _), Fail) => true
    case (Chmodded(tmp, _), Rename) => tmp in s.dir
    case (Chmodded(_, _), Fail) => true
    case (Deferred(_, _, _), CleanUp) => true
    case (Deferred(_, _, _), RemoveFails) => true
    case _ => false
  }

  predicate Enabled(c: Config, s: State, a: Action) {
    match a
    case Do(w, e) => w < |s.pcs| && w < |c.data| && CanDo(c, s, w, e)
    case Crash(survivors, torn) =>
      && TargetOf(c, survivors) in s.past
      && (forall n :: n in survivors ==> n == c.target || n in s.used)
      && (forall i :: i in s.files && !s.files[i].synced ==> i in torn)
  }

  function Fresh(files: map<Inode, File>): (i: Inode)
    ensures i !in files
  {
    Above(files.Keys)
  }

  function Above(s: set<Inode>): (i: Inode)
    ensures forall x :: x in s ==> x < i
  {
    if s == {} then 0
    else
      LargestExists(s);
      var m :| m in s && forall x :: x in s ==> x <= m;
      m + 1
  }

  lemma LargestExists(s: set<Inode>)
    requires s != {}
    ensures exists m :: m in s && forall x :: x in s ==> x <= m
  {
    var m :| m in s;
    var rest := s - {m};
    if rest != {} {
      LargestExists(rest);
      var k :| k in rest && forall x :: x in rest ==> x <= k;
      assert forall x :: x in s ==> x in rest || x == m;
      if m < k {
        assert forall x :: x in s ==> x <= k;
      } else {
        assert forall x :: x in s ==> x <= m;
      }
    } else {
      assert s == {m};
    }
  }

  function At(s: State, w: nat, pc: PC): State
    requires w < |s.pcs|
  {
    s.(pcs := s.pcs[w := pc])
  }

  function Perform(c: Config, s: State, w: nat, e: Effect): State
    requires w < |s.pcs| && w < |c.data| && CanDo(c, s, w, e)
  {
    var pc := s.pcs[w];
    match e
    case Create(name) =>
      var i := Fresh(s.files);
      At(s, w, Writing(name, i, 0))
      .(dir := s.dir[name := i], files := s.files[i := File("", false)], used := s.used + {name})
    case Put(n) =>
      var done := pc.done + n;
      At(s, w, if done == |c.data[w]| then Written(pc.tmp, pc.ino) else Writing(pc.tmp, pc.ino, done))
      .(files := s.files[pc.ino := File(c.data[w][..done], false)])
    case Sync =>
      var kept := if pc.ino in s.files then s.files[pc.ino].content else "";
      At(s, w, Synced(pc.tmp, pc.ino)).(files := s.files[pc.ino := File(kept, true)])
    case Close => At(s, w, Closed(pc.tmp, pc.ino))
    case Chmod => At(s, w, Chmodded(pc.tmp, pc.ino))
    case Rename =>
      At(s, w, Deferred(pc.tmp, pc.ino, true))
      .(dir := (s.dir - {pc.tmp})[c.target := s.dir[pc.tmp]], past := s.past + {Some(s.dir[pc.tmp])}, last := Some(w))
    case CleanUp => At(s, w, Returned(pc.ok, Some(pc.tmp), true)).(dir := s.dir - {pc.tmp})
    case RemoveFails => At(s, w, Returned(pc.ok, Some(pc.tmp), false))
    case Fail => At(s, w, if pc.Idle? then Returned(false, None, true) else Deferred(pc.tmp, pc.ino, false))
  }

  function Killed(pc: PC): PC {
    match pc
    case Idle => Idle
    case Deferred(_, _, ok) => Dead(ok)
    case Returned(ok, _, _) => Dead(ok)
    case Dead(r) => Dead(r)
    case _ => Dead(false)
  }

  function Apply(c: Config, s: State, a: Action): State
    requires Enabled(c, s, a)
  {
    match a
    case Do(w, e) => Perform(c, s, w, e)
    case Crash(survivors, torn) =>
      State(survivors,
            map i | i in s.files :: if s.files[i].synced then s.files[i] else File(torn[i], true),
            {TargetOf(c, survivors)},
            s.used,
            seq(|s.pcs|, w requires 0 <= w < |s.pcs| => Killed(s.pcs[w])),
            None)
  }

  /** The start: a complete, durable target or none, and writers that have not begun. */
  ghost predicate Start(c: Config, s: State) {
    && |s.pcs| == |c.data| && (forall w :: 0 <= w < |s.pcs| ==> s.pcs[w] == Idle)
    && s.past == {TargetOf(c, s.dir)} && s.used == {} && s.last == None
    && match c.initial
       case None => c.target !in s.dir
       case Some(text) =>
         c.target in s.dir && s.dir[c.target] in s.files && s.files[s.dir[c.target]] == File(text, true)
  }

  ghost predicate Schedule(c: Config, s: State, acts: seq<Action>)
    decreases |acts|
  {
    acts == [] || (Enabled(c, s, acts[0]) && Schedule(c, Apply(c, s, acts[0]), acts[1..]))
  }

  function Run(c: Config, s: State, acts: seq<Action>): State
    requires Schedule(c, s, acts)
    decreases |acts|
  {
    if acts == [] then s else Run(c, Apply(c, s, acts[0]), acts[1..])
  }

  // ---------------------------------------------------------------- what every state keeps

  predicate HasRenamed(pc: PC) { (pc.Deferred? && pc.ok) || (pc.Returned? && pc.ok) || (pc.Dead? && pc.renamed) }

  /** The writer still owns its temporary file. */
  predicate OwnsTemp(pc: PC) {
    pc.Writing? || pc.Written? || pc.Synced? || pc.Closed? || pc.Chmodded? || (pc.Deferred? && !pc.ok)
  }

  /** A complete content: the initial one, or that of a writer whose rename took place. */
  ghost predicate Complete(c: Config, pcs: seq<PC>, text: string) {
    || c.initial == Some(text)
    || exists w :: 0 <= w < |pcs| && w < |c.data| && HasRenamed(pcs[w]) && c.data[w] == text
  }

  ghost predicate WriterOk(c: Config, s: State, w: nat)
    requires w < |s.pcs| && w < |c.data|
  {
    match s.pcs[w]
    case Writing(tmp, i, done) => Holds(c, s, tmp, i) && done <= |c.data[w]| && s.files[i].content == c.data[w][..done]
    case Written(tmp, i) => Holds(c, s, tmp, i) && s.files[i].content == c.data[w]
    case Synced(tmp, i) => Holds(c, s, tmp, i) && s.files[i] == File(c.data[w], true)
    case Closed(tmp, i) => Holds(c, s, tmp, i) && s.files[i] == File(c.data[w], true)
    case Chmodded(tmp, i) => Holds(c, s, tmp, i) && s.files[i] == File(c.data[w], true)
    case Deferred(tmp, i, ok) => tmp in s.used && tmp != c.target && (if ok then tmp !in s.dir else Holds(c, s, tmp, i))
    case Returned(ok, Some(tmp), removed) => tmp in s.used && tmp != c.target && (tmp in s.dir <==> !ok && !removed)
    case _ => true
  }

  ghost predicate Holds(c: Config, s: State, tmp: Name, i: Inode) {
    tmp in s.used && tmp != c.target && tmp in s.dir && s.dir[tmp] == i && i in s.files
  }

  /** Every file the target may refer to is complete and durable, and no writer writes to it any more. */
  ghost predicate Sealed(c: Config, s: State, i: Inode) {
    && i in s.files && s.files[i].synced && Complete(c, s.pcs, s.files[i].content)
    && forall w :: 0 <= w < |s.pcs| && OwnsTemp(s.pcs[w]) ==> s.pcs[w].ino != i
  }

  predicate NamesTemp(pc: PC) { OwnsTemp(pc) || pc.Deferred? || (pc.Returned? && pc.left.Some?) }

  function TempOf(pc: PC): Name
    requires NamesTemp(pc)
  {
    if pc.Returned? then pc.left.value else pc.tmp
  }

  /** No two writers share a temporary name or a file. */
  ghost predicate Apart(s: State) {
    forall v, w :: 0 <= v < w < |s.pcs| ==>
      && (NamesTemp(s.pcs[v]) && NamesTemp(s.pcs[w]) ==> TempOf(s.pcs[v]) != TempOf(s.pcs[w]))
      && (OwnsTemp(s.pcs[v]) && OwnsTemp(s.pcs[w]) ==> s.pcs[v].ino != s.pcs[w].ino)
  }

  ghost predicate TargetOk(c: Config, s: State) {
    && TargetOf(c, s.dir) in s.past
    && (None in s.past ==> c.initial == None)
    && (forall i :: Some(i) in s.past ==> Sealed(c, s, i))
    && (s.last.Some? ==> s.last.value < |c.data| && c.target in s.dir && s.dir[c.target] in s.files &&
                         s.files[s.dir[c.target]].content == c.data[s.last.value])
  }

  ghost predicate Safe(c: Config, s: State) {
    && |s.pcs| == |c.data|
    && (forall w :: 0 <= w < |s.pcs| ==> WriterOk(c, s, w))
    && Apart(s)
    && TargetOk(c, s)
  }

  lemma CompleteGrows(c: Config, pcs: seq<PC>, w: nat, pc: PC, text: string)
    requires w < |pcs| && (HasRenamed(pcs[w]) ==> HasRenamed(pc)) && Complete(c, pcs, text)
    ensures Complete(c, pcs[w := pc], text)
  {
  }

  lemma StartSafe(c: Config, s: State)
    requires Start(c, s)
    ensures Safe(c, s)
  {
  }

  /** Steps that leave directory and files alone, or change only the writer's own unfinished file. */
  predicate IsOwnFileStep(e: Effect) { !e.Create? && !e.Rename? && !e.CleanUp? }

  lemma OwnFileWriters(c: Config, s: State, w: nat, e: Effect, v: nat)
    requires Safe(c, s) && w < |s.pcs| && CanDo(c, s, w, e) && IsOwnFileStep(e) && v < |s.pcs|
    ensures WriterOk(c, Perform(c, s, w, e), v)
  {
    assert WriterOk(c, s, w);
    assert WriterOk(c, s, v);
  }

  lemma OwnFileSealed(c: Config, s: State, w: nat, e: Effect, i: nat)
    requires Safe(c, s) && w < |s.pcs| && CanDo(c, s, w, e) && IsOwnFileStep(e) && Some(i) in s.past
    ensures Sealed(c, Perform(c, s, w, e), i)
  {
  }

  lemma OwnFileStep(c: Config, s: State, w: nat, e: Effect)
    requires Safe(c, s) && w < |s.pcs| && CanDo(c, s, w, e) && IsOwnFileStep(e)
    ensures Safe(c, Perform(c, s, w, e))
  {
    var s' := Perform(c, s, w, e);
    forall v | 0 <= v < |s.pcs| ensures WriterOk(c, s', v) {
      OwnFileWriters(c, s, w, e, v);
    }
    forall i | Some(i) in s.past ensures Sealed(c, s', i) {
      OwnFileSealed(c, s, w, e, i);
    }
  }

  lemma CreateStep(c: Config, s: State, w: nat, name: Name)
    requires Safe(c, s) && w < |s.pcs| && CanDo(c, s, w, Create(name))
    ensures Safe(c, Perform(c, s, w, Create(name)))
  {
    var s' := Perform(c, s, w, Create(name));
    forall v | 0 <= v < |s.pcs| ensures WriterOk(c, s', v) {
      assert WriterOk(c, s, v);
    }
    forall i | Some(i) in s.past ensures Sealed(c, s', i) {
      assert Sealed(c, s, i);
      CompleteGrows(c, s.pcs, w, s'.pcs[w], s.files[i].content);
    }
    forall v | 0 <= v < |s.pcs| && v != w
      ensures NamesTemp(s.pcs[v]) ==> TempOf(s.pcs[v]) in s.used
      ensures OwnsTemp(s.pcs[v]) ==> s.pcs[v].ino in s.files
    {
      assert WriterOk(c, s, v);
    }
  }

  lemma RenameStep(c: Config, s: State, w: nat)
    requires Safe(c, s) && w < |s.pcs| && CanDo(c, s, w, Rename)
    ensures Safe(c, Perform(c, s, w, Rename))
  {
    var s', i := Perform(c, s, w, Rename), s.pcs[w].ino;
    assert WriterOk(c, s, w);
    forall v | 0 <= v < |s.pcs| ensures WriterOk(c, s', v) {
      assert WriterOk(c, s, v);
    }
    assert HasRenamed(s'.pcs[w]) && c.data[w] == s.files[i].content;
    forall j | Some(j) in s'.past ensures Sealed(c, s', j) {
      if j != i {
        assert Sealed(c, s, j);
        CompleteGrows(c, s.pcs, w, s'.pcs[w], s.files[j].content);
      }
    }
  }

  lemma CleanUpStep(c: Config, s: State, w: nat)
    requires Safe(c, s) && w < |s.pcs| && CanDo(c, s, w, CleanUp)
    ensures Safe(c, Perform(c, s, w, CleanUp))
  {
    var s' := Perform(c, s, w, CleanUp);
    assert WriterOk(c, s, w);
    forall v | 0 <= v < |s.pcs| ensures WriterOk(c, s', v) {
      assert WriterOk(c, s, v);
    }
    forall j | Some(j) in s.past ensures Sealed(c, s', j) {
      assert Sealed(c, s, j);
      CompleteGrows(c, s.pcs, w, s'.pcs[w], s.files[j].content);
    }
  }

  lemma CrashStep(c: Config, s: State, a: Action)
    requires Safe(c, s) && a.Crash? && Enabled(c, s, a)
    ensures Safe(c, Apply(c, s, a))
  {
  }

  lemma StepSafe(c: Config, s: State, a: Action)
    requires Safe(c, s) && Enabled(c, s, a)
    ensures Safe(c, Apply(c, s, a))
  {
    match a
    case Crash(_, _) => CrashStep(c, s, a);
    case Do(w, e) =>
      if e.Create? {
        CreateStep(c, s, w, e.name);
      } else if e.Rename? {
        RenameStep(c, s, w);
      } else if e.CleanUp? {
        CleanUpStep(c, s, w);
      } else {
        OwnFileStep(c, s, w, e);
      }
  }

  lemma {:induction false} RunSafe(c: Config, s: State, acts: seq<Action>)
    requires Safe(c, s) && Schedule(c, s, acts)
    ensures Safe(c, Run(c, s, acts))
    decreases |acts|
  {
    if acts != [] {
      StepSafe(c, s, acts[0]);
      RunSafe(c, Apply(c, s, acts[0]), acts[1..]);
    }
  }

  /** After any prefix of any interleaving, with failures and crashes anywhere, the target holds the initial
      content or the whole content of a writer whose rename took place; it is absent only if it was absent
      at first; and what it holds would survive a crash right now. */
  lemma TargetIsComplete(c: Config, s: State, acts: seq<Action>)
    requires Start(c, s) && Schedule(c, s, acts)
    ensures var t := Run(c, s, acts);
            if c.target in t.dir
            then t.dir[c.target] in t.files && t.files[t.dir[c.target]].synced &&
                 Complete(c, t.pcs, t.files[t.dir[c.target]].content)
            else c.initial == None
  {
    StartSafe(c, s);
    RunSafe(c, s, acts);
    var t := Run(c, s, acts);
    assert TargetOf(c, t.dir) in t.past;
    if c.target in t.dir {
      assert Sealed(c, t, t.dir[c.target]);
    }
  }

  /** Whether the removal of what the call left behind has failed. */
  predicate RemovalFailed(pc: PC) { pc.Returned? && !pc.removed }

  lemma OthersStay(c: Config, s: State, w: nat, e: Effect)
    requires w < |s.pcs| && w < |c.data| && CanDo(c, s, w, e)
    ensures |Perform(c, s, w, e).pcs| == |s.pcs|
    ensures forall v :: 0 <= v < |s.pcs| && v != w ==> Perform(c, s, w, e).pcs[v] == s.pcs[v]
  {
  }

  lemma OwnRenameShows(c: Config, s: State, w: nat, e: Effect)
    requires w < |s.pcs| && w < |c.data| && CanDo(c, s, w, e)
    ensures HasRenamed(Perform(c, s, w, e).pcs[w]) <==> HasRenamed(s.pcs[w]) || e == Rename
  {
  }

  lemma OwnRemovalShows(c: Config, s: State, w: nat, e: Effect)
    requires w < |s.pcs| && w < |c.data| && CanDo(c, s, w, e)
    ensures var pc := Perform(c, s, w, e).pcs[w];
            !s.pcs[w].Dead? && !pc.Dead? && (RemovalFailed(pc) <==> RemovalFailed(s.pcs[w]) || e == RemoveFails)
  {
  }

  /** What one action changes in the state of a writer. */
  ghost predicate Shows(c: Config, s: State, a: Action, w: nat, t: State)
    requires w < |s.pcs|
  {
    && |t.pcs| == |s.pcs|
    && (HasRenamed(t.pcs[w]) <==> HasRenamed(s.pcs[w]) || a == Do(w, Rename))
    && (s.pcs[w].Dead? ==> t.pcs[w].Dead?)
    && (!t.pcs[w].Dead? ==> (RemovalFailed(t.pcs[w]) <==> RemovalFailed(s.pcs[w]) || a == Do(w, RemoveFails)))
  }

  lemma StepShows(c: Config, s: State, a: Action, w: nat)
    requires w < |s.pcs| && Enabled(c, s, a)
    ensures Shows(c, s, a, w, Apply(c, s, a))
  {
    match a
    case Do(v, e) =>
      OthersStay(c, s, v, e);
      OwnRenameShows(c, s, v, e);
      OwnRemovalShows(c, s, v, e);
    case Crash(_, _) => CrashShows(c, s, a, w);
  }

  lemma CrashShows(c: Config, s: State, a: Action, w: nat)
    requires w < |s.pcs| && a.Crash? && Enabled(c, s, a)
    ensures Shows(c, s, a, w, Apply(c, s, a))
  {
    assert Apply(c, s, a).pcs[w] == Killed(s.pcs[w]);
  }

  /** What a finished writer's state says about the steps that led there. */
  lemma {:induction false} StepsShow(c: Config, s: State, acts: seq<Action>, w: nat)
    requires w < |s.pcs| && Schedule(c, s, acts)
    ensures var t := Run(c, s, acts);
            && |t.pcs| == |s.pcs|
            && (HasRenamed(t.pcs[w]) <==> HasRenamed(s.pcs[w]) || Do(w, Rename) in acts)
            && (s.pcs[w].Dead? ==> t.pcs[w].Dead?)
            && (!t.pcs[w].Dead? ==>
                  (RemovalFailed(t.pcs[w]) <==> RemovalFailed(s.pcs[w]) || Do(w, RemoveFails) in acts))
    decreases |acts|
  {
    if acts != [] {
      StepShows(c, s, acts[0], w);
      StepsShow(c, Apply(c, s, acts[0]), acts[1..], w);
      assert forall a: Action :: a in acts <==> a == acts[0] || a in acts[1..];
    }
  }

  /** A call that has returned left its temporary file behind exactly if its rename did not take place and the
      deferred removal failed, whose error the code ignores; and if the latest rename was its own, the target
      holds its content. */
  lemma ReturnLeavesExactly(c: Config, s: State, acts: seq<Action>, w: nat)
    requires Start(c, s) && Schedule(c, s, acts)
    requires w < |Run(c, s, acts).pcs| && Run(c, s, acts).pcs[w].Returned?
    ensures var t := Run(c, s, acts);
            && (t.pcs[w].ok <==> Do(w, Rename) in acts)
            && (t.pcs[w].left.Some? ==>
                  (t.pcs[w].left.value in t.dir <==> Do(w, Rename) !in acts && Do(w, RemoveFails) in acts))
            && (t.last == Some(w) ==> c.target in t.dir && t.dir[c.target] in t.files && w < |c.data| &&
                                      t.files[t.dir[c.target]].content == c.data[w])
  {
    StartSafe(c, s);
    RunSafe(c, s, acts);
    StepsShow(c, s, acts, w);
    assert WriterOk(c, Run(c, s, acts), w);
  }

  /** Such a call exists wherever there is a writer: the write fails, and so does the removal after it. */
  lemma FailedRemovalLeavesFile(c: Config, s: State, name: Name)
    requires Start(c, s) && c.data != [] && name !in s.dir && name != c.target
    ensures var acts := [Do(0, Create(name)), Do(0, Fail), Do(0, RemoveFails)];
            && Schedule(c, s, acts)
            && |Run(c, s, acts).pcs| > 0 && Run(c, s, acts).pcs[0] == Returned(false, Some(name), false)
            && name in Run(c, s, acts).dir
  {
    var s1 := Perform(c, s, 0, Create(name));
    var s2 := Perform(c, s1, 0, Fail);
    var s3 := Perform(c, s2, 0, RemoveFails);
    var acts := [Do(0, Create(name)), Do(0, Fail), Do(0, RemoveFails)];
    assert acts[1..] == [Do(0, Fail), Do(0, RemoveFails)] && acts[1..][1..] == [Do(0, RemoveFails)];
    assert acts[1..][1..][1..] == [];
    assert Schedule(c, s3, []) && Run(c, s3, []) == s3;
    assert Schedule(c, s2, acts[1..][1..]) && Run(c, s2, acts[1..][1..]) == s3;
    assert Schedule(c, s1, acts[1..]) && Run(c, s1, acts[1..]) == s3;
  }

  /** A success names a rename: some writer's content is in place since the last crash. */
  ghost predicate SuccessShows(s: State) {
    forall w :: 0 <= w < |s.pcs| && (s.pcs[w].Deferred? || s.pcs[w].Returned?) && s.pcs[w].ok ==> s.last.Some?
  }

  lemma {:induction false} RunSuccessShows(c: Config, s: State, acts: seq<Action>)
    requires SuccessShows(s) && Schedule(c, s, acts)
    ensures SuccessShows(Run(c, s, acts))
    decreases |acts|
  {
    if acts != [] {
      RunSuccessShows(c, Apply(c, s, acts[0]), acts[1..]);
    }
  }

  /** A lone writer that returns success has installed exactly its content. */
  lemma LoneSuccessInstalls(c: Config, s: State, acts: seq<Action>)
    requires |c.data| == 1 && Start(c, s) && Schedule(c, s, acts)
    requires |Run(c, s, acts).pcs| == 1 && Run(c, s, acts).pcs[0].Returned? && Run(c, s, acts).pcs[0].ok
    ensures var t := Run(c, s, acts);
            c.target in t.dir && t.dir[c.target] in t.files && t.files[t.dir[c.target]] == File(c.data[0], true)
  {
    StartSafe(c, s);
    RunSafe(c, s, acts);
    RunSuccessShows(c, s, acts);
    TargetIsComplete(c, s, acts);
  }

  // ---------------------------------------------------------------- an undisturbed call succeeds

  lemma Then(c: Config, s: State, a: Action, acts: seq<Action>)
    requires Enabled(c, s, a) && Schedule(c, Apply(c, s, a), acts)
    ensures Schedule(c, s, [a] + acts) && Run(c, s, [a] + acts) == Run(c, Apply(c, s, a), acts)
  {
    assert ([a] + acts)[1..] == acts;
  }

  /** Rename and clean up, from where the file is ready. */
  lemma Finishing(c: Config, s: State, w: nat)
    requires w < |s.pcs| && w < |c.data| && s.pcs[w].Chmodded? && s.pcs[w].tmp != c.target
    requires s.pcs[w].tmp in s.dir && s.dir[s.pcs[w].tmp] in s.files
    requires s.files[s.dir[s.pcs[w].tmp]] == File(c.data[w], true)
    ensures Schedule(c, s, [Do(w, Rename), Do(w, CleanUp)])
    ensures var t := Run(c, s, [Do(w, Rename), Do(w, CleanUp)]);
            && |t.pcs| == |s.pcs| && t.pcs[w] == Returned(true, Some(s.pcs[w].tmp), true)
            && c.target in t.dir && t.dir[c.target] in t.files && t.files[t.dir[c.target]] == File(c.data[w], true)
  {
    var s1 := Perform(c, s, w, Rename);
    assert Schedule(c, Perform(c, s1, w, CleanUp), []);
    Then(c, s1, Do(w, CleanUp), []);
    assert [Do(w, CleanUp)] + [] == [Do(w, CleanUp)];
    Then(c, s, Do(w, Rename), [Do(w, CleanUp)]);
    assert [Do(w, Rename)] + [Do(w, CleanUp)] == [Do(w, Rename), Do(w, CleanUp)];
  }

  /** The effects of a call that nothing goes wrong in. */
  function Undisturbed(w: nat, name: Name, n: nat): seq<Action> {
    [Do(w, Create(name))] + ([Do(w, Put(n))] + AfterWriting(w))
  }

  function AfterWriting(w: nat): seq<Action> {
    [Do(w, Sync)] + ([Do(w, Close)] + ([Do(w, Chmod)] + [Do(w, Rename), Do(w, CleanUp)]))
  }

  lemma FromWritten(c: Config, s: State, w: nat)
    requires w < |s.pcs| && w < |c.data| && s.pcs[w].Written? && s.pcs[w].tmp != c.target
    requires s.pcs[w].tmp in s.dir && s.dir[s.pcs[w].tmp] == s.pcs[w].ino && s.pcs[w].ino in s.files
    requires s.files[s.pcs[w].ino].content == c.data[w]
    ensures Schedule(c, s, AfterWriting(w))
    ensures var t := Run(c, s, AfterWriting(w));
            && |t.pcs| == |s.pcs| && t.pcs[w] == Returned(true, Some(s.pcs[w].tmp), true)
            && c.target in t.dir && t.dir[c.target] in t.files && t.files[t.dir[c.target]] == File(c.data[w], true)
  {
    var s3 := Perform(c, s, w, Sync);
    var s4 := Perform(c, s3, w, Close);
    var s5 := Perform(c, s4, w, Chmod);
    Finishing(c, s5, w);
    var last := [Do(w, Rename), Do(w, CleanUp)];
    Then(c, s4, Do(w, Chmod), last);
    Then(c, s3, Do(w, Close), [Do(w, Chmod)] + last);
    Then(c, s, Do(w, Sync), [Do(w, Close)] + ([Do(w, Chmod)] + last));
  }

  /** Whatever the others have done, a call that has not begun can still return success, its content in place. */
  lemma CanSucceed(c: Config, s: State, w: nat, name: Name)
    requires w < |s.pcs| && w < |c.data| && s.pcs[w].Idle?
    requires name !in s.used && name !in s.dir && name != c.target
    ensures var acts := Undisturbed(w, name, |c.data[w]|);
            && Schedule(c, s, acts) && |Run(c, s, acts).pcs| == |s.pcs|
            && var t := Run(c, s, acts);
               && t.pcs[w] == Returned(true, Some(name), true)
               && c.target in t.dir && t.dir[c.target] in t.files && t.files[t.dir[c.target]] == File(c.data[w], true)
  {
    var n := |c.data[w]|;
    assert c.data[w][..n] == c.data[w];
    var s1 := Perform(c, s, w, Create(name));
    var s2 := Perform(c, s1, w, Put(n));
    FromWritten(c, s2, w);
    Then(c, s1, Do(w, Put(n)), AfterWriting(w));
    Then(c, s, Do(w, Create(name)), [Do(w, Put(n))] + AfterWriting(w));
  }
}
