/** The right-hand-rule controllers (scripts/right_hand_rule.py on tuple
    cells, optimized/optimized_right_hand_rule.py on flat indices): take the
    first open side looking clockwise from the right, and go back only when
    the right, front and left are all walled. */
module RightHandRule {
  import opened Datatypes
  import Pose
  import FlatPose

  /** The four compound moves a frame can make. */
  datatype Move = GoRight | GoAhead | GoLeft | GoBack

  /** The rule's choice from the three wall readings. */
  function Choose(s: Pose.Sides): (m: Move)
    ensures m == GoRight <==> !s.right
    ensures m == GoAhead <==> s.right && !s.front
    ensures m == GoLeft <==> s.right && s.front && !s.left
    ensures m == GoBack <==> s.right && s.front && s.left
  {
    if !s.right then GoRight
    else if !s.front then GoAhead
    else if !s.left then GoLeft
    else GoBack
  }

  /** The heading a move ends with, starting from heading `d`. */
  function Heading(m: Move, d: int): int {
    match m
    case GoRight => RightOf(d)
    case GoAhead => d
    case GoLeft => LeftOf(d)
    case GoBack => Behind(d)
  }

  /** A move on a tuple-cell pose, as base_script.py makes it (going back
      is two right turns and a step). */
  function Apply(m: Move, p: Pose.PoseState): Pose.PoseState {
    match m
    case GoRight => Pose.ToRight(p)
    case GoAhead => Pose.Forward(p)
    case GoLeft => Pose.ToLeft(p)
    case GoBack => Pose.Backward(p)
  }

  /** A move on a flat-index pose, as optimized_base_script.py makes it
      (going back is two left turns and a step). */
  function ApplyFlat(n: nat, m: Move, s: FlatPose.FlatState): FlatPose.FlatState
    requires n > 0
  {
    match m
    case GoRight => FlatPose.Forward(n, FlatPose.TurnedRight(s))
    case GoAhead => FlatPose.Forward(n, s)
    case GoLeft => FlatPose.Forward(n, FlatPose.TurnedLeft(s))
    case GoBack => FlatPose.Backward(n, s)
  }

  /** Every move ends facing the way it went, one tile along the new
      heading; and unless all three sides are walled, that heading is the
      one of a side the sensors report open. */
  lemma MoveGoesThroughChosenSide(s: Pose.Sides, p: Pose.PoseState)
    requires IsDirection(p.direction)
    ensures var q := Apply(Choose(s), p);
      q.direction == Heading(Choose(s), p.direction)
      && Pose.Cell(q) == TileInDirection(p.x, p.y, q.direction)
    ensures Choose(s) == GoRight ==> !s.right
    ensures Choose(s) == GoAhead ==> !s.front
    ensures Choose(s) == GoLeft ==> !s.left
  {
    FourRightTurns(p.direction);
  }

  /** The same for flat-index poses. */
  lemma FlatMoveGoesThroughChosenSide(n: nat, s: Pose.Sides, p: FlatPose.FlatState)
    requires n > 0 && IsDirection(p.direction)
    ensures var q := ApplyFlat(n, Choose(s), p);
      q.direction == Heading(Choose(s), p.direction)
      && q.pos == FlatPose.TileIndexInDirection(n, p.pos, q.direction)
  {
    FlatPose.BackwardReverses(n, p);
  }

  /** The flat pose after the loop has made one move per reading in
      `frames[..k]`. */
  function Walk(n: nat, frames: seq<Frame>, k: nat, s: FlatPose.FlatState): FlatPose.FlatState
    requires n > 0 && k <= |frames|
  {
    if k == 0 then s else ApplyFlat(n, Choose(frames[k - 1].sides), Walk(n, frames, k - 1, s))
  }

  /** A walk keeps the heading valid, and its last move takes the robot
      one tile along the heading it ends with. */
  lemma {:induction false} WalkStaysOnHeadings(n: nat, frames: seq<Frame>, k: nat, s: FlatPose.FlatState)
    requires n > 0 && k <= |frames| && IsDirection(s.direction)
    ensures IsDirection(Walk(n, frames, k, s).direction)
    ensures k > 0 ==>
      Walk(n, frames, k, s).pos == FlatPose.TileIndexInDirection(n, Walk(n, frames, k - 1, s).pos, Walk(n, frames, k, s).direction)
  {
    if k > 0 {
      WalkStaysOnHeadings(n, frames, k - 1, s);
      FlatMoveGoesThroughChosenSide(n, frames[k - 1].sides, Walk(n, frames, k - 1, s));
    }
  }

  /** What the sensors report in one pass of the optimized loop: the ground
      sensor, and the three wall sensors. */
  datatype Frame = Frame(ground: bool, sides: Pose.Sides)

  /** `k` is the first reading in which the ground sensor sees the
      centre. */
  ghost predicate FirstGround(frames: seq<Frame>, k: nat) {
    k < |frames| && frames[k].ground && forall j :: 0 <= j < k ==> !frames[j].ground
  }

  /** scripts/right_hand_rule.py on the tuple-cell base script. */
  class RightHandRuleScript {
    const pose: Pose.UserScript

    constructor (pose: Pose.UserScript)
      ensures this.pose == pose
    {
      this.pose := pose;
    }

    /** setup: the base script's. */
    method Setup()
      modifies pose
      ensures pose.start == (0, 0) && pose.State() == Pose.PoseState(0, 0, NORTH)
      ensures pose.waitDuration == 100 && pose.refreshes == old(pose.refreshes)
    {
      pose.Setup();
    }

    /** loop: exactly one compound move, the one the rule chooses from the
        readings `s`, then the status of the key read while waiting. */
    method Loop(s: Pose.Sides, key: int) returns (status: int)
      modifies pose`x, pose`y, pose`direction, pose`refreshes
      ensures pose.State() == Apply(Choose(s), old(pose.State()))
      ensures pose.refreshes == old(pose.refreshes) + (if Choose(s) == GoAhead then 1 else if Choose(s) == GoBack then 3 else 2)
      ensures status == Pose.UserPressedExitStatus(key)
    {
      if !s.right {
        pose.GoToRight();
      } else if !s.front {
        pose.GoForward();
      } else if !s.left {
        pose.GoToLeft();
      } else {
        pose.GoBackward();
      }
      status := Pose.UserPressedExitStatus(key);
    }
  }

  /** optimized/optimized_right_hand_rule.py on the flat-index base
      script. */
  class OptimizedRightHandRuleScript {
    const pose: FlatPose.OptimizedUserScript

    constructor (pose: FlatPose.OptimizedUserScript)
      ensures this.pose == pose
    {
      this.pose := pose;
    }

    /** setup: the base script's, at START facing north. */
    method Setup()
      modifies pose`pos, pose`direction
      ensures pose.State() == FlatPose.FlatState(pose.START, NORTH)
    {
      pose.Setup();
    }

    /** loop: until the ground sensor sees the centre, make the move the rule
        chooses; `frames[k]` is what the sensors report before the k-th
        check. `reached` says the ground sensor saw the centre within the
        readings given; otherwise the robot has made one move per reading
        and is still in the loop. */
    method Loop(frames: seq<Frame>) returns (reached: bool, ghost k: nat)
      requires pose.n > 0
      modifies pose`pos, pose`direction
      ensures reached <==> exists i :: 0 <= i < |frames| && frames[i].ground
      ensures reached ==> FirstGround(frames, k)
      ensures !reached ==> k == |frames|
      ensures pose.State() == Walk(pose.n, frames, k, old(pose.State()))
    {
      var i: nat := 0;
      while i < |frames| && !frames[i].ground
        invariant i <= |frames|
        invariant forall j :: 0 <= j < i ==> !frames[j].ground
        invariant pose.State() == Walk(pose.n, frames, i, old(pose.State()))
        decreases |frames| - i
      {
        var s := frames[i].sides;
        if !s.right {
          pose.GoToRight();
        } else if !s.front {
          pose.GoForward();
        } else if !s.left {
          pose.GoToLeft();
        } else {
          pose.GoBackward();
        }
        i := i + 1;
      }
      reached, k := i < |frames|, i;
    }
  }
}
