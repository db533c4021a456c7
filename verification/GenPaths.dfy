/**
 Which paths one task makes known to the generator, with which ids, and which it marks as
 updated, said in terms of the state before it and the task alone.
 */
module GenPaths {
  import opened Seqs
  import opened GenSpec
  import opened GenProof
  import opened GenLaws

  // ---------------------------------------------------------------- the table of paths

  function IdTable(vsizes: map<Path, Vsize>): map<Path, nat> { map path | path in vsizes :: vsizes[path].id }

  function UpdatedIn(vsizes: map<Path, Vsize>): set<Path> { set path | path in vsizes && vsizes[path].touched }

  /** Names are entered one after the other; one that is new gets the number of paths known so far, plus one. */
  function Learn(ids: map<Path, nat>, names: seq<Path>): map<Path, nat>
    decreases |names|
  {
    if names == [] then ids
    else Learn(if names[0] in ids then ids else ids[names[0] := |ids| + 1], names[1..])
  }

  // ---------------------------------------------------------------- what a task does to it

  /** A task whose handler gets past its checks on the path arguments. */
  predicate NamesPath(t: Task) {
    Opens(t) || (t.name.PathOp? && t.path.Some?) || (t.name.Rename? && t.path.Some? && t.path2.Some?)
  }

  /** The paths of its arguments the task looks up; rename needs its second path only to update it. */
  function Named(g: GState, t: Task): seq<Path> {
    if !Runs(g, t) || !NamesPath(t) || t.path.None? then []
    else if t.name.Rename? && t.touches && t.path2.Some? then [t.path.value, t.path2.value]
    else [t.path.value]
  }

  /** The path of the descriptor the task names, if it is open. */
  function DescribedBy(g: GState, t: Task): set<Path> {
    var fds, vfds := OpenFds(g, t.pid), OpenVfds(g, t.pid);
    if t.fd in fds && fds[t.fd] in vfds then {vfds[fds[t.fd]].path} else {}
  }

  function OpenPaths(vfds: map<nat, Vfd>): set<Path> { set m | m in vfds :: vfds[m].path }

  /** The paths a task updates: an open its own and that of the close it stands for, an exit all that are open. */
  function Updates(g: GState, t: Task): set<Path> {
    if !Runs(g, t) then {}
    else if Opens(t) then Elements(Named(g, t)) + DescribedBy(g, t)
    else if t.name.ExitGroup? then OpenPaths(OpenVfds(g, t.pid))
    else if !t.touches then {}
    else if t.name.Close? || t.name.FdOp? || t.name == Fcntl(true) then DescribedBy(g, t)
    else Elements(Named(g, t))
  }

  /** The named paths that are updated for the first time: the directory above each is entered as well. */
  function FirstUpdated(g: GState, t: Task): seq<Path> {
    var before := UpdatedIn(g.vsizes) + if Opens(t) then DescribedBy(g, t) else {};
    var named := Named(g, t);
    if named == [] || !(Opens(t) || t.touches) then []
    else
      (if named[0] in before then [] else [named[0]])
      + (if |named| == 1 || named[1] in before || named[1] == named[0] then [] else [named[1]])
  }

  /** All the names a task enters, in order. */
  function Entered(g: GState, t: Task, parent: Path -> Path): seq<Path> {
    Named(g, t) + Map(FirstUpdated(g, t), parent)
  }

  /** A directory entered for the sake of a path below it counts as updated from then on. */
  function Discovered(g: GState, t: Task, parent: Path -> Path): set<Path> {
    Elements(Map(FirstUpdated(g, t), parent)) - g.vsizes.Keys - Elements(Named(g, t))
  }

  function AllUpdates(g: GState, t: Task, parent: Path -> Path): set<Path> {
    Updates(g, t) + Discovered(g, t, parent)
  }

  // ---------------------------------------------------------------- proofs

  ghost predicate Counted(g: GState) { g.numVsizes == |g.vsizes| }

  /** From `a` to `b` these names were entered and these paths updated. */
  ghost predicate Step(a: GState, b: GState, names: seq<Path>, updates: set<Path>) {
    && Counted(b)
    && IdTable(b.vsizes) == Learn(IdTable(a.vsizes), names)
    && UpdatedIn(b.vsizes) == UpdatedIn(a.vsizes) + updates
  }

  lemma {:induction false} LearnMore(ids: map<Path, nat>, xs: seq<Path>, ys: seq<Path>)
    ensures Learn(ids, xs + ys) == Learn(Learn(ids, xs), ys)
    decreases |xs|
  {
    if xs == [] {
      assert xs + ys == ys;
    } else {
      assert (xs + ys)[1..] == xs[1..] + ys;
      LearnMore(if xs[0] in ids then ids else ids[xs[0] := |ids| + 1], xs[1..], ys);
    }
  }

  lemma StepStep(a: GState, b: GState, c: GState, xs: seq<Path>, ys: seq<Path>, us: set<Path>, vs: set<Path>)
    requires Step(a, b, xs, us) && Step(b, c, ys, vs)
    ensures Step(a, c, xs + ys, us + vs)
  {
    LearnMore(IdTable(a.vsizes), xs, ys);
  }

  lemma SameSize(vsizes: map<Path, Vsize>)
    ensures |IdTable(vsizes)| == |vsizes|
  {
    assert IdTable(vsizes).Keys == vsizes.Keys;
  }

  lemma LearnOne(ids: map<Path, nat>, path: Path)
    ensures Learn(ids, [path]) == if path in ids then ids else ids[path := |ids| + 1]
  {
    assert [path][1..] == [];
  }

  lemma KnowStep(g: GState, path: Path)
    requires Counted(g)
    ensures Step(g, Know(g, path), [path], {})
  {
    hide Learn;
    LearnOne(IdTable(g.vsizes), path);
    SameSize(g.vsizes);
    assert path in g.vsizes <==> path in IdTable(g.vsizes);
    assert IdTable(Know(g, path).vsizes) == Learn(IdTable(g.vsizes), [path]);
  }

  lemma TouchStep(g: GState, path: Path)
    requires Counted(g) && path in g.vsizes
    ensures Step(g, Touch(g, path), [], {path})
  {
    assert |Touch(g, path).vsizes| == |Touch(g, path).vsizes.Keys|;
  }

  /** A path that was not updated before enters the directory above it, which is updated if it is new. */
  lemma ParentStep(g: GState, path: Path, parent: Path -> Path)
    requires Counted(g) && path in g.vsizes
    ensures Step(g, TouchWithParent(g, path, parent), if path in UpdatedIn(g.vsizes) then [] else [parent(path)],
                 {path} + if path in UpdatedIn(g.vsizes) then {} else {parent(path)} - g.vsizes.Keys)
  {
    hide Learn, Know, Touch, Step;
    var up := parent(path);
    if path in UpdatedIn(g.vsizes) {
      NoStep(g, path);
    } else if up in g.vsizes {
      KnownStep(g, up);
      TouchStep(g, path);
      StepStep(g, g, Touch(g, path), [up], [], {}, {path});
      assert [up] + [] == [up] && {} + {path} == {path} + ({up} - g.vsizes.Keys);
    } else {
      var g1 := Know(g, up);
      KnowStep(g, up);
      assert Counted(g1) by { StepCounted(g, g1, [up], {}); }
      TouchStep(g1, up);
      var g2 := Touch(g1, up);
      assert Counted(g2) by { StepCounted(g1, g2, [], {up}); }
      KnowKeeps(g, up, path);
      TouchStep(g2, path);
      StepStep(g, g1, g2, [up], [], {}, {up});
      StepStep(g, g2, Touch(g2, path), [up] + [], [], {} + {up}, {path});
      assert [up] + [] + [] == [up] && {} + {up} + {path} == {path} + ({up} - g.vsizes.Keys);
    }
  }

  lemma StepCounted(a: GState, b: GState, names: seq<Path>, updates: set<Path>)
    requires Step(a, b, names, updates)
    ensures Counted(b)
  {
  }

  lemma KnowKeeps(g: GState, up: Path, path: Path)
    requires path in g.vsizes
    ensures path in Know(g, up).vsizes
  {
  }

  lemma NoStep(g: GState, path: Path)
    requires Counted(g) && path in UpdatedIn(g.vsizes)
    ensures Step(g, g, [], {path} + {})
  {
  }

  lemma KnownStep(g: GState, path: Path)
    requires Counted(g) && path in g.vsizes
    ensures Step(g, g, [path], {})
  {
    LearnOne(IdTable(g.vsizes), path);
  }

  // ---------------------------------------------------------------- handlers

  /** The sizes that Step speaks of. */
  predicate SameSizes(a: GState, b: GState) { a.vsizes == b.vsizes && a.numVsizes == b.numVsizes }

  lemma StepToSame(a: GState, b: GState, c: GState, names: seq<Path>, updates: set<Path>)
    requires Step(a, b, names, updates) && SameSizes(b, c)
    ensures Step(a, c, names, updates)
  {
  }

  lemma StepFromSame(a: GState, b: GState, c: GState, names: seq<Path>, updates: set<Path>)
    requires SameSizes(a, b) && Step(b, c, names, updates)
    ensures Step(a, c, names, updates)
  {
  }

  lemma DescribedIsKnown(g: GState, t: Task)
    requires Inv(g) && t.pid in g.procs && t.fd in g.procs[t.pid].fds
    ensures var p := g.procs[t.pid];
            && p.fds[t.fd] in p.vfds && p.vfds[p.fds[t.fd]].path in g.vsizes
            && DescribedBy(g, t) == {p.vfds[p.fds[t.fd]].path}
  {
    hide Inv, OpenedUnder;
    FdIsTraced(g, t.pid, t.fd);
  }

  /** A line on an open descriptor: its path is known, and updated if the handler says so. */
  lemma EmittedStep(g: GState, g': GState, path: Path, touch: bool)
    requires Counted(g) && path in g.vsizes
    requires g'.vsizes == (if touch then Touch(g, path) else g).vsizes && g'.numVsizes == g.numVsizes
    ensures Step(g, g', [], if touch then {path} else {})
  {
    hide Step, Touch;
    if touch {
      TouchStep(g, path);
      StepToSame(g, Touch(g, path), g', [], {path});
    } else {
      IdleStep(g, g');
    }
  }

  lemma IdleStep(g: GState, g': GState)
    requires Counted(g) && SameSizes(g, g')
    ensures Step(g, g', [], {})
  {
  }

  lemma CloseStep(g: GState, t: Task)
    requires Inv(g) && Consistent(g) && Counted(g) && t.pid in g.procs && Positive(g.procs[t.pid]) && Runs(g, t)
    requires t.name.Close?
    ensures Step(g, RunClose(g, t), [], Updates(g, t))
  {
    hide Inv, Step;
    var p := g.procs[t.pid];
    if t.fd in p.fds {
      DescribedIsKnown(g, t);
      EmittedStep(g, RunClose(g, t), p.vfds[p.fds[t.fd]].path, t.touches);
    } else {
      IdleStep(g, g);
    }
  }

  lemma UseStep(g: GState, t: Task)
    requires Inv(g) && Consistent(g) && Counted(g) && t.pid in g.procs && Positive(g.procs[t.pid]) && Runs(g, t)
    requires t.name.FdOp? || t.name.Fcntl?
    ensures Step(g, RunFdOp(g, t), [], Updates(g, t))
  {
    hide Inv, Step;
    var p := g.procs[t.pid];
    assert Elements(Named(g, t)) == {};
    if t.fd in p.fds && t.name != Fcntl(false) {
      DescribedIsKnown(g, t);
      EmittedStep(g, RunFdOp(g, t), p.vfds[p.fds[t.fd]].path, t.touches);
    } else {
      IdleStep(g, g);
    }
  }

  lemma KnowUpdates(g: GState, path: Path)
    ensures UpdatedIn(Know(g, path).vsizes) == UpdatedIn(g.vsizes)
    ensures Know(g, path).vsizes.Keys == g.vsizes.Keys + {path}
  {
  }

  /** A path is entered, then updated. */
  lemma NameAndParent(g: GState, g1: GState, path: Path, parent: Path -> Path)
    requires Step(g, g1, [path], {}) && path in g1.vsizes
    ensures var g2 := TouchWithParent(g1, path, parent);
            if path in UpdatedIn(g1.vsizes) then Step(g, g2, [path], {path})
            else Step(g, g2, [path, parent(path)], {path} + ({parent(path)} - g1.vsizes.Keys))
  {
    hide Know, TouchWithParent, Step, UpdatedIn;
    var g2 := TouchWithParent(g1, path, parent);
    StepCounted(g, g1, [path], {});
    ParentStep(g1, path, parent);
    if path in UpdatedIn(g1.vsizes) {
      StepStep(g, g1, g2, [path], [], {}, {path} + {});
      assert [path] + [] == [path] && {} + ({path} + {}) == {path};
    } else {
      var up := parent(path);
      var found := {up} - g1.vsizes.Keys;
      StepStep(g, g1, g2, [path], [up], {}, {path} + found);
      assert [path] + [up] == [path, up] && {} + ({path} + found) == {path} + found;
    }
  }

  lemma NoNames(g: GState, t: Task, parent: Path -> Path)
    requires Named(g, t) == []
    ensures Entered(g, t, parent) == [] && Discovered(g, t, parent) == {} && Elements(Named(g, t)) == {}
  {
  }

  /** One named path, not updated for the first time or updated for the first time. */
  lemma OneName(g: GState, t: Task, parent: Path -> Path, path: Path)
    requires Named(g, t) == [path]
    ensures Elements(Named(g, t)) == {path}
    ensures FirstUpdated(g, t) == [] ==> Entered(g, t, parent) == [path] && Discovered(g, t, parent) == {}
    ensures FirstUpdated(g, t) == [path] ==>
              && Entered(g, t, parent) == [path, parent(path)]
              && Discovered(g, t, parent) == {parent(path)} - g.vsizes.Keys - {path}
  {
    hide FirstUpdated;
    if FirstUpdated(g, t) == [path] {
      assert Map([path], parent) == [parent(path)];
    }
  }

  lemma NameStep(g: GState, g1: GState, path: Path, parent: Path -> Path, touch: bool)
    requires Counted(g) && SameSizes(Know(g, path), g1) && path in g1.vsizes
    ensures !touch ==> Step(g, g1, [path], {})
    ensures touch && path in UpdatedIn(g.vsizes) ==> Step(g, TouchWithParent(g1, path, parent), [path], {path})
    ensures touch && path !in UpdatedIn(g.vsizes) ==>
              Step(g, TouchWithParent(g1, path, parent), [path, parent(path)],
                   {path} + ({parent(path)} - g.vsizes.Keys - {path}))
  {
    hide Know, Step, UpdatedIn, TouchWithParent;
    KnowStep(g, path);
    KnowUpdates(g, path);
    StepToSame(g, Know(g, path), g1, [path], {});
    if touch {
      NameAndParent(g, g1, path, parent);
      assert {parent(path)} - g1.vsizes.Keys == {parent(path)} - g.vsizes.Keys - {path};
    }
  }

  /** A path operation enters its path, and when it updates it, the directory above it. */
  lemma PathOpStep(g: GState, t: Task, parent: Path -> Path)
    requires Counted(g) && t.pid in g.procs && Runs(g, t) && t.name.PathOp?
    ensures Step(g, RunPathOp(g, t, parent), Entered(g, t, parent), AllUpdates(g, t, parent))
  {
    hide Step, Entered, AllUpdates, Know, TouchWithParent, UpdatedIn;
    if t.path.Some? {
      var path := t.path.value;
      var g1 := Emit(Know(g, path), path, g.procs[t.pid].mapped, OnPath(path), t.lineno);
      NameStep(g, g1, path, parent, t.touches);
      PathOpNames(g, t, parent, path);
    } else {
      NoNames(g, t, parent);
      NoUpdates(g, t, parent);
      IdleStep(g, g);
    }
  }

  lemma NoUpdates(g: GState, t: Task, parent: Path -> Path)
    requires t.name.PathOp? || t.name.Rename?
    requires Named(g, t) == []
    ensures AllUpdates(g, t, parent) == {}
  {
  }

  lemma PathOpNames(g: GState, t: Task, parent: Path -> Path, path: Path)
    requires Runs(g, t) && t.name.PathOp? && t.path == Some(path)
    ensures var first := t.touches && path !in UpdatedIn(g.vsizes);
            && Entered(g, t, parent) == (if first then [path, parent(path)] else [path])
            && AllUpdates(g, t, parent) == if first then {path} + ({parent(path)} - g.vsizes.Keys - {path})
                                           else if t.touches then {path} else {}
  {
    hide UpdatedIn, Discovered, Entered;
    OneName(g, t, parent, path);
  }

  /** The close that an open stands for updates the path of the descriptor it closes. */
  lemma InsertedStep(g: GState, t: Task)
    requires Inv(g) && Consistent(g) && Counted(g) && t.pid in g.procs && Opens(t)
    ensures var g1 := InsertMissingClose(g, t);
            Step(g, g1, [], DescribedBy(g, t)) && g1.vsizes.Keys == g.vsizes.Keys
  {
    hide Inv, Step;
    var p, g1 := g.procs[t.pid], InsertMissingClose(g, t);
    if t.fd in p.fds {
      DescribedIsKnown(g, t);
      EmittedStep(g, g1, p.vfds[p.fds[t.fd]].path, true);
    } else {
      IdleStep(g, g);
    }
  }

  lemma OpenNames(g: GState, t: Task, parent: Path -> Path, path: Path)
    requires Runs(g, t) && Opens(t) && t.path == Some(path)
    ensures var first := path !in UpdatedIn(g.vsizes) + DescribedBy(g, t);
            && Entered(g, t, parent) == (if first then [path, parent(path)] else [path])
            && AllUpdates(g, t, parent)
            == DescribedBy(g, t) + if first then {path} + ({parent(path)} - g.vsizes.Keys - {path}) else {path}
  {
    hide UpdatedIn, Discovered, Entered, DescribedBy;
    OneName(g, t, parent, path);
  }

  lemma OpenStep(g: GState, t: Task, parent: Path -> Path)
    requires Inv(g) && Consistent(g) && Counted(g) && t.pid in g.procs && Runs(g, t) && Opens(t)
    ensures Step(g, RunOpen(g, t, parent), Entered(g, t, parent), AllUpdates(g, t, parent))
  {
    hide Inv, Step, Entered, AllUpdates, Know, TouchWithParent, InsertMissingClose, RunOpen, UpdatedIn,
         DescribedBy;
    var path, gi := t.path.value, InsertMissingClose(g, t);
    OpenSplits(g, t, parent);
    InsertedStep(g, t);
    StepCounted(g, gi, [], DescribedBy(g, t));
    var g1 := AfterOpenLine(Know(gi, path), t, path);
    NameStep(gi, g1, path, parent, true);
    StepUpdates(g, gi, [], DescribedBy(g, t));
    OpenNames(g, t, parent, path);
    var g2 := TouchWithParent(g1, path, parent);
    if path in UpdatedIn(gi.vsizes) {
      StepMore(g, gi, g2, DescribedBy(g, t), [path], {path});
    } else {
      StepMore(g, gi, g2, DescribedBy(g, t), [path, parent(path)],
               {path} + ({parent(path)} - g.vsizes.Keys - {path}));
    }
  }

  lemma StepUpdates(a: GState, b: GState, names: seq<Path>, updates: set<Path>)
    requires Step(a, b, names, updates)
    ensures UpdatedIn(b.vsizes) == UpdatedIn(a.vsizes) + updates
  {
  }

  /** A first step that enters nothing. */
  lemma StepMore(a: GState, b: GState, c: GState, us: set<Path>, names: seq<Path>, vs: set<Path>)
    requires Step(a, b, [], us) && Step(b, c, names, vs)
    ensures Step(a, c, names, us + vs)
  {
    StepStep(a, b, c, [], names, us, vs);
    assert [] + names == names;
  }

  // ---------------------------------------------------------------- rename

  /** The directory an update of the path enters. */
  function Ups(vsizes: map<Path, Vsize>, path: Path, parent: Path -> Path): seq<Path> {
    if path in UpdatedIn(vsizes) then [] else [parent(path)]
  }

  lemma UpsStep(g: GState, path: Path, parent: Path -> Path)
    requires Counted(g) && path in g.vsizes
    ensures var g', ups := TouchWithParent(g, path, parent), Ups(g.vsizes, path, parent);
            Step(g, g', ups, {path} + (Elements(ups) - g.vsizes.Keys))
              && g'.vsizes.Keys == g.vsizes.Keys + Elements(ups)
  {
    hide Step, UpdatedIn, Elements, TouchWithParent;
    ParentStep(g, path, parent);
    ParentKeys(g, path, parent);
    UpsElements(g.vsizes, path, parent);
  }

  lemma UpsElements(vsizes: map<Path, Vsize>, path: Path, parent: Path -> Path)
    ensures Elements(Ups(vsizes, path, parent)) == if path in UpdatedIn(vsizes) then {} else {parent(path)}
  {
    hide UpdatedIn;
  }

  lemma ParentKeys(g: GState, path: Path, parent: Path -> Path)
    requires path in g.vsizes
    ensures TouchWithParent(g, path, parent).vsizes.Keys
         == g.vsizes.Keys + if path in UpdatedIn(g.vsizes) then {} else {parent(path)}
  {
  }

  /** Both paths of a rename are known when the first of them is updated. */
  lemma BothKnown(g: GState, k1: GState, k2: GState, p: Path, q: Path)
    requires Counted(g) && SameSizes(Know(g, p), k1) && k2 == Know(k1, q)
    ensures Step(g, k2, [p, q], {}) && UpdatedIn(k2.vsizes) == UpdatedIn(g.vsizes)
    ensures k2.vsizes.Keys == g.vsizes.Keys + {p, q}
  {
    hide Know, Step, UpdatedIn;
    KnowStep(g, p);
    KnowUpdates(g, p);
    StepToSame(g, Know(g, p), k1, [p], {});
    StepCounted(g, k1, [p], {});
    KnowStep(k1, q);
    KnowUpdates(k1, q);
    StepStep(g, k1, k2, [p], [q], {}, {});
    assert [p] + [q] == [p, q];
  }

  /** The second path of a rename is updated for the first time unless it was before, or is the first path. */
  lemma SecondUps(g: GState, p: Path, q: Path, parent: Path -> Path)
    requires Counted(g) && p in g.vsizes && q in g.vsizes
    ensures Ups(TouchWithParent(g, p, parent).vsizes, q, parent) == if q == p then [] else Ups(g.vsizes, q, parent)
  {
    hide Step, TouchWithParent, UpdatedIn;
    var updates := {p} + (Elements(Ups(g.vsizes, p, parent)) - g.vsizes.Keys);
    UpsStep(g, p, parent);
    StepUpdates(g, TouchWithParent(g, p, parent), Ups(g.vsizes, p, parent), updates);
    assert q in updates <==> q == p;
  }

  lemma ElementsConcat(xs: seq<Path>, ys: seq<Path>)
    ensures Elements(xs + ys) == Elements(xs) + Elements(ys)
  {
  }

  lemma TwoParents(k2: GState, p: Path, q: Path, parent: Path -> Path)
    requires Counted(k2) && p in k2.vsizes && q in k2.vsizes
    ensures var k3 := TouchWithParent(k2, p, parent);
            var ups := Ups(k2.vsizes, p, parent) + if q == p then [] else Ups(k2.vsizes, q, parent);
            Step(k2, TouchWithParent(k3, q, parent), ups, {p, q} + (Elements(ups) - k2.vsizes.Keys))
  {
    hide Step, Ups, TouchWithParent, Elements;
    var k3 := TouchWithParent(k2, p, parent);
    var ps := Ups(k2.vsizes, p, parent);
    var qs := Ups(k3.vsizes, q, parent);
    UpsStep(k2, p, parent);
    StepCounted(k2, k3, ps, {p} + (Elements(ps) - k2.vsizes.Keys));
    UpsStep(k3, q, parent);
    SecondUps(k2, p, q, parent);
    StepStep(k2, k3, TouchWithParent(k3, q, parent), ps, qs,
             {p} + (Elements(ps) - k2.vsizes.Keys), {q} + (Elements(qs) - k3.vsizes.Keys));
    ElementsConcat(ps, qs);
    NewNames(p, q, Elements(ps), Elements(qs), k2.vsizes.Keys);
  }

  lemma NewNames(p: Path, q: Path, ps: set<Path>, qs: set<Path>, known: set<Path>)
    ensures {p} + (ps - known) + ({q} + (qs - (known + ps))) == {p, q} + (ps + qs - known)
  {
  }

  lemma RenameNames(g: GState, t: Task, parent: Path -> Path, p: Path, q: Path)
    requires Runs(g, t) && t.name.Rename? && t.touches && t.path == Some(p) && t.path2 == Some(q)
    ensures var ups := Ups(g.vsizes, p, parent) + if q == p then [] else Ups(g.vsizes, q, parent);
            && Entered(g, t, parent) == [p, q] + ups
            && AllUpdates(g, t, parent) == {p, q} + (Elements(ups) - (g.vsizes.Keys + {p, q}))
  {
    hide UpdatedIn;
    var ups := Ups(g.vsizes, p, parent) + if q == p then [] else Ups(g.vsizes, q, parent);
    assert Map(FirstUpdated(g, t), parent) == ups;
    assert Elements([p, q]) == {p, q};
  }

  lemma RenameOnly(g: GState, t: Task, parent: Path -> Path, p: Path)
    requires Runs(g, t) && t.name.Rename? && !t.touches && t.path == Some(p) && t.path2.Some?
    ensures Entered(g, t, parent) == [p] && AllUpdates(g, t, parent) == {}
  {
    hide Discovered, Entered;
    OneName(g, t, parent, p);
  }

  lemma RenameStep(g: GState, t: Task, parent: Path -> Path)
    requires Counted(g) && t.pid in g.procs && Runs(g, t) && t.name.Rename?
    ensures Step(g, RunPathOp(g, t, parent), Entered(g, t, parent), AllUpdates(g, t, parent))
  {
    hide Step, Entered, AllUpdates, Know, TouchWithParent, UpdatedIn, Ups;
    if t.path.None? || t.path2.None? {
      NoNames(g, t, parent);
      NoUpdates(g, t, parent);
      IdleStep(g, g);
    } else {
      var p, q := t.path.value, t.path2.value;
      var g1 := Emit(Know(g, p), p, g.procs[t.pid].mapped, OnPath(p), t.lineno);
      if t.touches {
        KnowKeeps(g1, q, p);
        RenamedStep(g, g1, p, q, parent);
        RenameNames(g, t, parent, p, q);
      } else {
        NameStep(g, g1, p, parent, false);
        RenameOnly(g, t, parent, p);
      }
    }
  }

  lemma RenamedStep(g: GState, g1: GState, p: Path, q: Path, parent: Path -> Path)
    requires Counted(g) && SameSizes(Know(g, p), g1) && p in Know(g1, q).vsizes
    ensures var ups := Ups(g.vsizes, p, parent) + if q == p then [] else Ups(g.vsizes, q, parent);
            Step(g, TouchWithParent(TouchWithParent(Know(g1, q), p, parent), q, parent), [p, q] + ups,
                 {p, q} + (Elements(ups) - (g.vsizes.Keys + {p, q})))
  {
    hide Step, Know, TouchWithParent, UpdatedIn, Elements;
    var k2 := Know(g1, q);
    var ups := Ups(g.vsizes, p, parent) + if q == p then [] else Ups(g.vsizes, q, parent);
    BothKnown(g, g1, k2, p, q);
    StepCounted(g, k2, [p, q], {});
    TwoParents(k2, p, q, parent);
    var updates := {p, q} + (Elements(ups) - k2.vsizes.Keys);
    StepStep(g, k2, TouchWithParent(TouchWithParent(k2, p, parent), q, parent), [p, q], ups, {}, updates);
    assert {} + updates == updates;
  }

  // ---------------------------------------------------------------- the end of a process

  /** The paths of some of the open descriptors. */
  function PathsOf(vfds: map<nat, Vfd>, order: seq<nat>): set<Path> {
    set m | m in order && m in vfds :: vfds[m].path
  }

  lemma PathsSnoc(vfds: map<nat, Vfd>, order: seq<nat>, m: nat)
    requires m in vfds
    ensures PathsOf(vfds, order + [m]) == PathsOf(vfds, order) + {vfds[m].path}
  {
    assert forall k :: k in order + [m] <==> k in order || k == m;
  }

  lemma {:induction false} CloseAllStep(g: GState, pid: nat, order: seq<nat>, lineno: nat)
    requires Inv(g) && Counted(g) && pid in g.procs
    requires forall i :: 0 <= i < |order| ==> order[i] in g.procs[pid].vfds
    ensures var g' := CloseAll(g, g.procs[pid], order, lineno);
            Step(g, g', [], PathsOf(g.procs[pid].vfds, order)) && g'.vsizes.Keys == g.vsizes.Keys
    decreases |order|
  {
    hide Inv, Step, OpenedUnder, PathsOf;
    var p := g.procs[pid];
    if order == [] {
      assert PathsOf(p.vfds, []) == {} by { NoPaths(p.vfds); }
      IdleStep(g, g);
    } else {
      var front, last := order[..|order| - 1], order[|order| - 1];
      var g1 := CloseAll(g, p, front, lineno);
      CloseAllStep(g, pid, front, lineno);
      OpenIsTraced(g, pid, last);
      StepCounted(g, g1, [], PathsOf(p.vfds, front));
      EmittedStep(g1, CloseAll(g, p, order, lineno), p.vfds[last].path, true);
      StepMore(g, g1, CloseAll(g, p, order, lineno), PathsOf(p.vfds, front), [], {p.vfds[last].path});
      assert order == front + [last];
      PathsSnoc(p.vfds, front, last);
    }
  }

  lemma NoPaths(vfds: map<nat, Vfd>)
    ensures PathsOf(vfds, []) == {}
  {
  }

  lemma ExitNames(g: GState, t: Task, parent: Path -> Path, order: seq<nat>)
    requires t.pid in g.procs && Runs(g, t) && t.name.ExitGroup? && IsOrder(g.procs[t.pid].vfds, order)
    ensures Entered(g, t, parent) == [] && AllUpdates(g, t, parent) == PathsOf(g.procs[t.pid].vfds, order)
  {
    hide Entered, Discovered;
    var vfds := g.procs[t.pid].vfds;
    NoNames(g, t, parent);
    AllPaths(vfds, order);
  }

  lemma AllPaths(vfds: map<nat, Vfd>, order: seq<nat>)
    requires IsOrder(vfds, order)
    ensures PathsOf(vfds, order) == OpenPaths(vfds)
  {
    forall m | m in vfds
      ensures vfds[m].path in PathsOf(vfds, order)
    {
      assert m in order && m in vfds;
    }
  }

  lemma ExitStep(g: GState, t: Task, parent: Path -> Path, order: seq<nat>)
    requires Inv(g) && Counted(g) && t.pid in g.procs && Runs(g, t) && t.name.ExitGroup?
    requires IsOrder(g.procs[t.pid].vfds, order)
    ensures Step(g, RunExit(g, t, order), Entered(g, t, parent), AllUpdates(g, t, parent))
  {
    hide Inv, Step, Entered, AllUpdates, PathsOf;
    CloseAllStep(g, t.pid, order, t.lineno);
    StepToSame(g, CloseAll(g, g.procs[t.pid], order, t.lineno), RunExit(g, t, order), [],
               PathsOf(g.procs[t.pid].vfds, order));
    ExitNames(g, t, parent, order);
  }

  // ---------------------------------------------------------------- one task, every state

  lemma DispatchStep(g: GState, t: Task, parent: Path -> Path, order: seq<nat>)
    requires Inv(g) && Consistent(g) && Counted(g) && Numbered(g.procs, g.numPids) && t.pid in g.procs && Runs(g, t)
    requires OrderFits(g, t, order)
    ensures Step(g, Dispatch(g, t, parent, order), Entered(g, t, parent), AllUpdates(g, t, parent))
  {
    hide Inv, Consistent, Step, Entered, AllUpdates, RunOpen, RunClose, RunFdOp, RunPathOp, RunExit, Positive;
    match t.name
    case Open => OpenOrNotStep(g, t, parent);
    case Creat => OpenOrNotStep(g, t, parent);
    case Close => CloseStep(g, t); DescriptorNames(g, t, parent);
    case FdOp => UseStep(g, t); DescriptorNames(g, t, parent);
    case Fcntl(_) => UseStep(g, t); DescriptorNames(g, t, parent);
    case PathOp => PathOpStep(g, t, parent);
    case Rename => RenameStep(g, t, parent);
    case ExitGroup => ExitStep(g, t, parent, order);
    case _ => OtherStep(g, t, parent, order);
  }

  lemma DescriptorNames(g: GState, t: Task, parent: Path -> Path)
    requires t.name.Close? || t.name.FdOp? || t.name.Fcntl?
    ensures Entered(g, t, parent) == [] && AllUpdates(g, t, parent) == Updates(g, t)
  {
    NoNames(g, t, parent);
  }

  lemma OpenOrNotStep(g: GState, t: Task, parent: Path -> Path)
    requires Inv(g) && Consistent(g) && Counted(g) && t.pid in g.procs && Runs(g, t) && (t.name.Open? || t.name.Creat?)
    ensures Step(g, RunOpen(g, t, parent), Entered(g, t, parent), AllUpdates(g, t, parent))
  {
    hide Inv, Step, Entered, AllUpdates;
    if Opens(t) {
      OpenStep(g, t, parent);
    } else {
      RefusedOpen(g, t, parent);
      IdleStep(g, g);
    }
  }

  lemma RefusedOpen(g: GState, t: Task, parent: Path -> Path)
    requires (t.name.Open? || t.name.Creat?) && !Opens(t)
    ensures Entered(g, t, parent) == [] && AllUpdates(g, t, parent) == {}
  {
    NoNames(g, t, parent);
  }

  lemma OtherStep(g: GState, t: Task, parent: Path -> Path, order: seq<nat>)
    requires Consistent(g) && Counted(g) && t.pid in g.procs && Runs(g, t) && OrderFits(g, t, order)
    requires t.name.SyncAll? || t.name.Ignored? || t.name.Unknown?
    ensures Step(g, Dispatch(g, t, parent, order), Entered(g, t, parent), AllUpdates(g, t, parent))
  {
    hide Step, Entered;
    NoNames(g, t, parent);
    assert AllUpdates(g, t, parent) == {};
    IdleStep(g, Dispatch(g, t, parent, order));
  }

  lemma RunStep(g: GState, t: Task, parent: Path -> Path, order: seq<nat>)
    requires Good(g) && Consistent(g) && Counted(g) && Numbered(g.procs, g.numPids) && OrderFits(g, t, order)
    ensures Step(g, Run(g, t, parent, order), Entered(g, t, parent), AllUpdates(g, t, parent))
  {
    hide Inv, Consistent, Numbered, Step, Dispatch, Entered, AllUpdates;
    var g' := Run(g, t, parent, order);
    if Runs(g, t) {
      var g1 := WithProcess(g, t.pid);
      var order1 := if t.pid in g.procs then order else [];
      NewProcessInv(g, t.pid);
      InvConsistent(g1, {});
      NumberedProcess(g, t.pid);
      DispatchStep(g1, t, parent, order1);
      SameNames(g, t, parent);
      StepFromSame(g, g1, g', Entered(g, t, parent), AllUpdates(g, t, parent));
    } else {
      NotRunNames(g, t, parent);
      IdleStep(g, g');
    }
  }

  lemma NotRunNames(g: GState, t: Task, parent: Path -> Path)
    requires !Runs(g, t)
    ensures Entered(g, t, parent) == [] && AllUpdates(g, t, parent) == {}
  {
    NoNames(g, t, parent);
  }

  /** Naming the process changes none of what the task enters and updates. */
  lemma SameNames(g: GState, t: Task, parent: Path -> Path)
    requires Runs(g, t)
    ensures var g1 := WithProcess(g, t.pid);
            Entered(g1, t, parent) == Entered(g, t, parent) && AllUpdates(g1, t, parent) == AllUpdates(g, t, parent)
  {
    hide UpdatedIn, Elements, OpenPaths;
    var g1 := WithProcess(g, t.pid);
    assert Named(g1, t) == Named(g, t) && DescribedBy(g1, t) == DescribedBy(g, t);
  }

  lemma {:induction false} StatesCounted(tasks: seq<Task>, parent: Path -> Path, states: seq<GState>,
                                         orders: seq<seq<nat>>, i: nat)
    requires RunThrough(tasks, parent, states, orders) && i <= |tasks|
    ensures Counted(states[i])
  {
    hide Inv, Run, Numbered, Step;
    if i == 0 {
    } else {
      StatesCounted(tasks, parent, states, orders, i - 1);
      RunGood(tasks, parent, states, orders, i - 1);
      StatesNumbered(tasks, parent, states, orders, i - 1);
      var g, t := states[i - 1], tasks[i - 1];
      assert CanStep(g, t, parent, orders[i - 1], states[i]);
      RunStep(g, t, parent, orders[i - 1]);
      StepCounted(g, states[i], Entered(g, t, parent), AllUpdates(g, t, parent));
    }
  }

  lemma GeneratedCounted(tasks: seq<Task>, parent: Path -> Path, g: GState)
    requires Generated(tasks, parent, g)
    ensures Counted(g)
  {
    hide CanStep;
    var states, orders :| RunThrough(tasks, parent, states, orders) && g == states[|tasks|];
    StatesCounted(tasks, parent, states, orders, |tasks|);
  }

  /** The ids after a task: those before it, and new ones for the names it enters, in the order it meets them. */
  lemma TaskEntersItsPaths(tasks: seq<Task>, parent: Path -> Path, g: GState, t: Task, order: seq<nat>)
    requires Generated(tasks, parent, g) && OrderFits(g, t, order)
    ensures Consistent(g)
    ensures var g' := Run(g, t, parent, order);
            && IdTable(g'.vsizes) == Learn(IdTable(g.vsizes), Entered(g, t, parent))
            && g'.numVsizes == |g'.vsizes|
  {
    hide Good, Run, Numbered, Learn, Entered, AllUpdates;
    GeneratedGood(tasks, parent, g);
    GeneratedCounted(tasks, parent, g);
    MappedPidsAreDistinct(tasks, parent, g);
    RunStep(g, t, parent, order);
  }

  /** Which paths a task marks as updated. */
  lemma TaskUpdatesItsPaths(tasks: seq<Task>, parent: Path -> Path, g: GState, t: Task, order: seq<nat>)
    requires Generated(tasks, parent, g) && OrderFits(g, t, order)
    ensures Consistent(g)
    ensures UpdatedIn(Run(g, t, parent, order).vsizes)
         == UpdatedIn(g.vsizes) + Updates(g, t) + Discovered(g, t, parent)
  {
    hide Good, Run, Numbered, Learn, Entered, Updates, Discovered, UpdatedIn;
    GeneratedGood(tasks, parent, g);
    GeneratedCounted(tasks, parent, g);
    MappedPidsAreDistinct(tasks, parent, g);
    RunStep(g, t, parent, order);
  }
}