/** Which processes a pause reaches: one pass over the process list, collecting children. */
module Processes {
  datatype RunningProcess = RunningProcess(pid: nat, ppid: nat)

  predicate CheckParentPid(ppid: nat, procs: seq<RunningProcess>) {
    exists i :: 0 <= i < |procs| && procs[i].pid == ppid
  }

  /** Whether the pass picks up the i-th process: its parent is a root, or was picked up before it. */
  predicate Picked(parents: seq<RunningProcess>, others: seq<RunningProcess>, i: nat)
    requires i < |others|
  {
    || CheckParentPid(others[i].ppid, parents)
    || exists j :: 0 <= j < i && Picked(parents, others, j) && others[j].pid == others[i].ppid
  }

  function PickedUpTo(parents: seq<RunningProcess>, others: seq<RunningProcess>, n: nat): seq<RunningProcess>
    requires n <= |others|
  {
    if n == 0 then []
    else PickedUpTo(parents, others, n - 1) + (if Picked(parents, others, n - 1) then [others[n - 1]] else [])
  }

  lemma {:induction false} PickedUpToHas(parents: seq<RunningProcess>, others: seq<RunningProcess>, n: nat, pid: nat)
    requires n <= |others|
    ensures CheckParentPid(pid, PickedUpTo(parents, others, n))
       <==> exists j :: 0 <= j < n && Picked(parents, others, j) && others[j].pid == pid
  {
    if n > 0 {
      PickedUpToHas(parents, others, n - 1, pid);
      var before, now := PickedUpTo(parents, others, n - 1), PickedUpTo(parents, others, n);
      if CheckParentPid(pid, before) {
        var i :| 0 <= i < |before| && before[i].pid == pid;
        assert now[i].pid == pid;
      }
      if Picked(parents, others, n - 1) {
        assert now[|before|] == others[n - 1];
      }
    }
  }

  /** Which of the first `n` processes are picked up. */
  ghost function PickedBelow(parents: seq<RunningProcess>, others: seq<RunningProcess>, n: nat): set<nat>
    requires n <= |others|
  {
    set i: nat | i < n && Picked(parents, others, i)
  }

  lemma PickedBelowStep(parents: seq<RunningProcess>, others: seq<RunningProcess>, n: nat)
    requires 0 < n <= |others|
    ensures |PickedBelow(parents, others, n)|
         == |PickedBelow(parents, others, n - 1)| + (if Picked(parents, others, n - 1) then 1 else 0)
  {
    var fewer := PickedBelow(parents, others, n - 1);
    assert PickedBelow(parents, others, n) == if Picked(parents, others, n - 1) then fewer + {n - 1} else fewer;
  }

  /** `found` is the picked ones among the first `n`, each once, behind those listed before it. */
  ghost predicate InListOrder(found: seq<RunningProcess>, parents: seq<RunningProcess>, others: seq<RunningProcess>, n: nat)
    requires n <= |others|
  {
    && |found| == |PickedBelow(parents, others, n)|
    && forall i :: 0 <= i < n && Picked(parents, others, i) ==>
         var place := |PickedBelow(parents, others, i)|; place < |found| && found[place] == others[i]
  }

  lemma {:induction false} PickedCount(parents: seq<RunningProcess>, others: seq<RunningProcess>, n: nat)
    requires n <= |others|
    ensures |PickedUpTo(parents, others, n)| == |PickedBelow(parents, others, n)|
  {
    if n == 0 {
      assert PickedBelow(parents, others, 0) == {};
    } else {
      PickedCount(parents, others, n - 1);
      PickedBelowStep(parents, others, n);
    }
  }

  lemma {:induction false} PickedAt(parents: seq<RunningProcess>, others: seq<RunningProcess>, n: nat, i: nat)
    requires i < n <= |others| && Picked(parents, others, i)
    ensures var place := |PickedBelow(parents, others, i)|;
            place < |PickedUpTo(parents, others, n)| && PickedUpTo(parents, others, n)[place] == others[i]
  {
    if i == n - 1 {
      PickedCount(parents, others, i);
    } else {
      PickedAt(parents, others, n - 1, i);
    }
  }

  lemma PickedInListOrder(parents: seq<RunningProcess>, others: seq<RunningProcess>)
    ensures InListOrder(PickedUpTo(parents, others, |others|), parents, others, |others|)
  {
    PickedCount(parents, others, |others|);
    forall i | 0 <= i < |others| && Picked(parents, others, i)
      ensures var place := |PickedBelow(parents, others, i)|;
              && place < |PickedUpTo(parents, others, |others|)|
              && PickedUpTo(parents, others, |others|)[place] == others[i]
    {
      PickedAt(parents, others, |others|, i);
    }
  }

  /** All roots, followed by the picked processes in the order of the list. */
  method FindAllChildProcs(parents: seq<RunningProcess>, others: seq<RunningProcess>) returns (r: seq<RunningProcess>)
    ensures r == parents + PickedUpTo(parents, others, |others|)
  {
    r := parents;
    for n := 0 to |others|
      invariant r == parents + PickedUpTo(parents, others, n)
    {
      PickedUpToHas(parents, others, n, others[n].ppid);
      ConcatHas(parents, PickedUpTo(parents, others, n), others[n].ppid);
      var found := false;
      for k := 0 to |r|
        invariant found <==> exists i :: 0 <= i < k && r[i].pid == others[n].ppid
      {
        found := found || r[k].pid == others[n].ppid;
      }
      if found {
        r := r + [others[n]];
      }
    }
  }

  lemma ConcatHas(a: seq<RunningProcess>, b: seq<RunningProcess>, pid: nat)
    ensures CheckParentPid(pid, a + b) <==> CheckParentPid(pid, a) || CheckParentPid(pid, b)
  {
    if i :| 0 <= i < |a| && a[i].pid == pid {
      assert (a + b)[i].pid == pid;
    }
    if i :| 0 <= i < |b| && b[i].pid == pid {
      assert (a + b)[|a| + i].pid == pid;
    }
  }

  // ---------------------------------------------------------------- the descendants of the roots

  /** A line of descent: from a child of a root down to the last process, in any order of the list. */
  ghost predicate IsDescent(parents: seq<RunningProcess>, others: seq<RunningProcess>, line: seq<nat>) {
    && line != [] && (forall k :: 0 <= k < |line| ==> line[k] < |others|)
    && CheckParentPid(others[line[0]].ppid, parents)
    && forall k :: 0 < k < |line| ==> others[line[k]].ppid == others[line[k - 1]].pid
  }

  ghost predicate Descends(parents: seq<RunningProcess>, others: seq<RunningProcess>, i: nat) {
    exists line :: IsDescent(parents, others, line) && line[|line| - 1] == i
  }

  /** A process descends from a root exactly when its parent is a root or descends from one. */
  lemma DescendsByParent(parents: seq<RunningProcess>, others: seq<RunningProcess>, i: nat)
    requires i < |others|
    ensures Descends(parents, others, i) <==>
      || CheckParentPid(others[i].ppid, parents)
      || exists j :: 0 <= j < |others| && Descends(parents, others, j) && others[j].pid == others[i].ppid
  {
    if Descends(parents, others, i) {
      var line :| IsDescent(parents, others, line) && line[|line| - 1] == i;
      if |line| > 1 {
        var shorter := line[..|line| - 1];
        assert IsDescent(parents, others, shorter);
        assert Descends(parents, others, shorter[|shorter| - 1]);
      }
    }
    if CheckParentPid(others[i].ppid, parents) {
      assert IsDescent(parents, others, [i]) && [i][|[i]| - 1] == i;
    }
    if j :| 0 <= j < |others| && Descends(parents, others, j) && others[j].pid == others[i].ppid {
      var line :| IsDescent(parents, others, line) && line[|line| - 1] == j;
      var longer := line + [i];
      assert IsDescent(parents, others, longer) && longer[|longer| - 1] == i;
    }
  }

  /** Nothing is picked that does not descend from a root. */
  lemma {:induction false} PickedDescends(parents: seq<RunningProcess>, others: seq<RunningProcess>, i: nat)
    requires i < |others| && Picked(parents, others, i)
    ensures Descends(parents, others, i)
  {
    if !CheckParentPid(others[i].ppid, parents) {
      var j :| 0 <= j < i && Picked(parents, others, j) && others[j].pid == others[i].ppid;
      PickedDescends(parents, others, j);
    }
    DescendsByParent(parents, others, i);
  }

  /** Every descendant has, before it in the list or among the roots, a parent that is a root or a descendant. */
  ghost predicate ParentsFirst(parents: seq<RunningProcess>, others: seq<RunningProcess>) {
    forall i :: 0 <= i < |others| && Descends(parents, others, i) ==>
      || CheckParentPid(others[i].ppid, parents)
      || exists j :: 0 <= j < i && Descends(parents, others, j) && others[j].pid == others[i].ppid
  }

  /** The one pass finds every descendant exactly when parents come first. */
  lemma AllDescendantsPickedIffParentsFirst(parents: seq<RunningProcess>, others: seq<RunningProcess>)
    ensures (forall i :: 0 <= i < |others| && Descends(parents, others, i) ==> Picked(parents, others, i))
       <==> ParentsFirst(parents, others)
  {
    if ParentsFirst(parents, others) {
      forall i | 0 <= i < |others| && Descends(parents, others, i) ensures Picked(parents, others, i) {
        DescendantIsPicked(parents, others, i);
      }
    }
    if forall i :: 0 <= i < |others| && Descends(parents, others, i) ==> Picked(parents, others, i) {
      forall i | 0 <= i < |others| && Descends(parents, others, i) && !CheckParentPid(others[i].ppid, parents)
        ensures exists j :: 0 <= j < i && Descends(parents, others, j) && others[j].pid == others[i].ppid
      {
        var j :| 0 <= j < i && Picked(parents, others, j) && others[j].pid == others[i].ppid;
        PickedDescends(parents, others, j);
      }
    }
  }

  lemma {:induction false} DescendantIsPicked(parents: seq<RunningProcess>, others: seq<RunningProcess>, i: nat)
    requires i < |others| && Descends(parents, others, i) && ParentsFirst(parents, others)
    ensures Picked(parents, others, i)
  {
    if !CheckParentPid(others[i].ppid, parents) {
      var j :| 0 <= j < i && Descends(parents, others, j) && others[j].pid == others[i].ppid;
      DescendantIsPicked(parents, others, j);
    }
  }

  /** It is enough that no process is listed before its own parent. */
  lemma SortedListIsEnough(parents: seq<RunningProcess>, others: seq<RunningProcess>)
    requires forall i, j :: 0 <= i < |others| && 0 <= j < |others| && others[j].pid == others[i].ppid ==> j < i
    ensures ParentsFirst(parents, others)
  {
    forall i | 0 <= i < |others| && Descends(parents, others, i) && !CheckParentPid(others[i].ppid, parents)
      ensures exists j :: 0 <= j < i && Descends(parents, others, j) && others[j].pid == others[i].ppid
    {
      DescendsByParent(parents, others, i);
    }
  }

  /** A grandchild listed before its parent is left running. */
  lemma GrandchildListedFirstIsMissed()
    ensures var parents, others := [RunningProcess(10, 1)], [RunningProcess(12, 11), RunningProcess(11, 10)];
            Descends(parents, others, 0) && !Picked(parents, others, 0)
  {
    var parents, others := [RunningProcess(10, 1)], [RunningProcess(12, 11), RunningProcess(11, 10)];
    assert parents[0].pid == others[1].ppid;
    assert IsDescent(parents, others, [1, 0]);
  }
}
