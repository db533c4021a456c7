/** The capture lines the journal refers to: every journal line carries the number of the line it came from. */
module JournalTags {
  import opened GenSpec
  import opened GenProof

  /** Journal lines were added behind the old ones, all for this capture line. */
  ghost predicate Extends(before: seq<Op>, after: seq<Op>, lineno: nat) {
    before <= after && forall i :: |before| <= i < |after| ==> after[i].lineno == lineno
  }

  lemma EmitCloseExtends(g: GState, vfd: Vfd, mapped: nat, pid: nat, lineno: nat, touch: bool)
    ensures Extends(g.journal, EmitClose(g, vfd, mapped, pid, lineno, touch).journal, lineno)
  {
  }

  lemma OpenExtends(g: GState, t: Task, parent: Path -> Path)
    requires Consistent(g) && t.pid in g.procs
    ensures Extends(g.journal, RunOpen(g, t, parent).journal, t.lineno)
  {
  }

  lemma PathOpExtends(g: GState, t: Task, parent: Path -> Path)
    requires t.pid in g.procs
    ensures Extends(g.journal, RunPathOp(g, t, parent).journal, t.lineno)
  {
  }

  lemma {:induction false} ClosesExtend(g: GState, p: Proc, order: seq<nat>, lineno: nat)
    requires forall i :: 0 <= i < |order| ==> order[i] in p.vfds
    ensures Extends(g.journal, CloseAll(g, p, order, lineno).journal, lineno)
    decreases |order|
  {
    if order == [] {
    } else {
      var k := |order| - 1;
      ClosesExtend(g, p, order[..k], lineno);
      var g1, vfd := CloseAll(g, p, order[..k], lineno), p.vfds[order[k]];
      EmitCloseExtends(g1, vfd, vfd.mapped, p.mapped, lineno, true);
      assert CloseAll(g, p, order, lineno) == EmitClose(g1, vfd, vfd.mapped, p.mapped, lineno, true);
    }
  }

  lemma DispatchExtends(g: GState, t: Task, parent: Path -> Path, order: seq<nat>)
    requires Consistent(g) && t.pid in g.procs && OrderFits(g, t, order)
    ensures Extends(g.journal, Dispatch(g, t, parent, order).journal, t.lineno)
  {
    hide RunOpen, RunPathOp, CloseAll;
    match t.name
    case Open => OpenExtends(g, t, parent);
    case Creat => OpenExtends(g, t, parent);
    case PathOp => PathOpExtends(g, t, parent);
    case Rename => PathOpExtends(g, t, parent);
    case ExitGroup => ClosesExtend(g, g.procs[t.pid], order, t.lineno);
    case _ =>
  }

  lemma RunExtends(g: GState, t: Task, parent: Path -> Path, order: seq<nat>)
    requires Consistent(g) && OrderFits(g, t, order)
    ensures Extends(g.journal, Run(g, t, parent, order).journal, t.lineno)
  {
    hide Dispatch;
    var g1 := WithProcess(g, t.pid);
    if !g.halted && t.ok && !g1.halted {
      DispatchExtends(g1, t, parent, if t.pid in g.procs then order else []);
    }
  }

  /** The tasks come in file order. */
  ghost predicate InFileOrder(tasks: seq<Task>) {
    forall i, j :: 0 <= i < j < |tasks| ==> tasks[i].lineno <= tasks[j].lineno
  }

  /** So do the journal lines, and none comes from a later capture line. */
  ghost predicate TagsAscend(journal: seq<Op>, lineno: nat) {
    && (forall i, j :: 0 <= i < j < |journal| ==> journal[i].lineno <= journal[j].lineno)
    && (forall i :: 0 <= i < |journal| ==> journal[i].lineno <= lineno)
  }

  lemma ExtendsAscend(before: seq<Op>, after: seq<Op>, last: nat, lineno: nat)
    requires TagsAscend(before, last) && last <= lineno && Extends(before, after, lineno)
    ensures TagsAscend(after, lineno)
  {
  }

  lemma {:induction false} StatesAscend(tasks: seq<Task>, parent: Path -> Path, states: seq<GState>,
                                        orders: seq<seq<nat>>, i: nat)
    requires RunThrough(tasks, parent, states, orders) && InFileOrder(tasks) && i <= |tasks|
    ensures TagsAscend(states[i].journal, if i == 0 then 0 else tasks[i - 1].lineno)
  {
    hide Run, TagsAscend;
    if i == 0 {
      NoTags();
    } else {
      StatesAscend(tasks, parent, states, orders, i - 1);
      var g, t := states[i - 1], tasks[i - 1];
      assert CanStep(g, t, parent, orders[i - 1], states[i]);
      RunExtends(g, t, parent, orders[i - 1]);
      ExtendsAscend(g.journal, states[i].journal, if i == 1 then 0 else tasks[i - 2].lineno, t.lineno);
    }
  }

  lemma NoTags()
    ensures TagsAscend([], 0)
  {
  }

  /** The capture line numbers of the journal never decrease. */
  lemma LineTagsAscend(tasks: seq<Task>, parent: Path -> Path, g: GState)
    requires Generated(tasks, parent, g) && InFileOrder(tasks)
    ensures forall i, j :: 0 <= i < j < |g.journal| ==> g.journal[i].lineno <= g.journal[j].lineno
  {
    hide CanStep, InFileOrder;
    var states, orders :| RunThrough(tasks, parent, states, orders) && g == states[|tasks|];
    StatesAscend(tasks, parent, states, orders, |tasks|);
  }
}
