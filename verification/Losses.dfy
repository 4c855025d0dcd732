/** Which losses deserve a warning: the first of each run of losses with no long enough gap in it. */
module Losses {
  import opened Wrappers

  const LOSS_QUIET := 5000 // milliseconds

  datatype Push = Push(lost: bool, now: int)

  /** The time of the latest loss, if there has been one. */
  function LastLoss(pushes: seq<Push>): Option<int> {
    if pushes == [] then None
    else if pushes[|pushes| - 1].lost then Some(pushes[|pushes| - 1].now)
    else LastLoss(pushes[..|pushes| - 1])
  }

  predicate Begins(last: Option<int>, p: Push) {
    p.lost && (last.None? || p.now - last.value > LOSS_QUIET)
  }

  class Spell {
    var last: Option<int>
    ghost var pushes: seq<Push>

    ghost predicate Valid()
      reads this
    {
      last == LastLoss(pushes)
    }

    constructor ()
      ensures Valid() && pushes == []
    {
      last, pushes := None, [];
    }

    method Pushed(lost: bool, now: int) returns (begins: bool)
      requires Valid()
      modifies this
      ensures Valid() && pushes == old(pushes) + [Push(lost, now)]
      ensures begins == Begins(LastLoss(old(pushes)), Push(lost, now))
    {
      pushes := pushes + [Push(lost, now)];
      assert pushes[..|pushes| - 1] == old(pushes);
      if !lost {
        return false;
      }
      begins := last.None? || now - last.value > LOSS_QUIET;
      last := Some(now);
    }
  }

  ghost predicate InTime(pushes: seq<Push>) {
    forall i, j :: 0 <= i < j < |pushes| ==> pushes[i].now <= pushes[j].now
  }

  lemma {:induction false} LastLossIsLatest(pushes: seq<Push>)
    requires InTime(pushes)
    ensures match LastLoss(pushes)
            case None => forall j :: 0 <= j < |pushes| ==> !pushes[j].lost
            case Some(t) =>
              (forall j :: 0 <= j < |pushes| && pushes[j].lost ==> pushes[j].now <= t)
              && exists j :: 0 <= j < |pushes| && pushes[j].lost && pushes[j].now == t
  {
    if pushes != [] && !pushes[|pushes| - 1].lost {
      var front := pushes[..|pushes| - 1];
      LastLossIsLatest(front);
      if LastLoss(front).Some? {
        var j :| 0 <= j < |front| && front[j].lost && front[j].now == LastLoss(front).value;
        assert pushes[j] == front[j];
      }
    }
  }

  /** A warning is due exactly when nothing was lost in the quiet time before. */
  lemma WarnsExactlyWhenQuietBefore(pushes: seq<Push>, k: nat)
    requires InTime(pushes) && k < |pushes|
    ensures Begins(LastLoss(pushes[..k]), pushes[k])
       <==> pushes[k].lost && forall j :: 0 <= j < k && pushes[j].lost ==> pushes[k].now - pushes[j].now > LOSS_QUIET
  {
    var front := pushes[..k];
    LastLossIsLatest(front);
    assert forall j :: 0 <= j < k ==> front[j] == pushes[j];
  }
}
