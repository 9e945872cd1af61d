/** The per-gem collision detector: every poll it measures the gem and the
    dino, tests the two boxes for strict overlap and, on overlap, signals
    "take" with the gem's own id. It keeps no memory of earlier polls. */
module Gem {
  import opened Geometry

  /** Strict axis-aligned overlap of the gem box with the dino box. */
  predicate Collides(gem: Rect, dino: Rect) {
    gem.bottom > dino.top &&
    gem.right > dino.left &&
    gem.top < dino.bottom &&
    gem.left < dino.right
  }

  /** One poll of the detector: the id it hands to the take callback, if any.
      Missing measurements fall back to the all-zero box. */
  function Poll(id: int, gemBox: Option<Rect>, dinoBox: Option<Rect>): (taken: Option<int>)
    ensures taken.Some? <==> Collides(OrDefault(gemBox), OrDefault(dinoBox))
    ensures taken.Some? ==> taken.value == id
  {
    if Collides(OrDefault(gemBox), OrDefault(dinoBox)) then Some(id) else None
  }

  /** The measurements of one poll. */
  datatype Measurement = Measurement(gemBox: Option<Rect>, dinoBox: Option<Rect>)

  /** The ids handed to the take callback over consecutive polls. */
  function Signals(id: int, polls: seq<Measurement>): (ids: seq<int>)
    ensures |ids| <= |polls|
    ensures forall k :: 0 <= k < |ids| ==> ids[k] == id
  {
    if polls == [] then []
    else
      var rest := Signals(id, polls[1..]);
      match Poll(id, polls[0].gemBox, polls[0].dinoBox)
      case Some(taken) => [taken] + rest
      case None => rest
  }

  /** Swapping the roles of the two boxes does not change the verdict. */
  lemma CollidesSymmetric(a: Rect, b: Rect)
    ensures Collides(a, b) <==> Collides(b, a)
  {
  }

  /** Every comparison is strict, so boxes that only share an edge do not
      overlap. */
  lemma TouchingEdgesDoNotCollide(gem: Rect, dino: Rect)
    requires gem.left == dino.right || gem.right == dino.left ||
             gem.top == dino.bottom || gem.bottom == dino.top
    ensures !Collides(gem, dino)
  {
  }

  /** Two boxes that are both flat along the same axis never overlap. */
  lemma FlatBoxesDoNotCollide(a: Rect, b: Rect)
    requires (FlatHorizontally(a) && FlatHorizontally(b)) ||
             (FlatVertically(a) && FlatVertically(b))
    ensures !Collides(a, b)
  {
  }

  /** With neither element measured, no take is signalled. */
  lemma UnmeasuredNeverTakes(id: int)
    ensures !Collides(DefaultRect, DefaultRect)
    ensures Poll(id, None, None) == None
  {
    FlatBoxesDoNotCollide(DefaultRect, DefaultRect);
  }

  /** A single degenerate box can still overlap: the all-zero fallback for an
      unmeasured gem is taken by a dino box that straddles the origin. */
  lemma UnmeasuredGemCanBeTaken(id: int)
    ensures Poll(id, None, Some(Rect(-10, 10, 10, -10))) == Some(id)
  {
  }

  /** For boxes with positive area, the test holds exactly when their
      intersection has positive area. */
  lemma CollidesIffIntersectionHasArea(a: Rect, b: Rect)
    requires Proper(a) && Proper(b)
    ensures Collides(a, b) <==>
            Max(a.left, b.left) < Min(a.right, b.right) &&
            Max(a.top, b.top) < Min(a.bottom, b.bottom)
  {
  }

  /** The detector does not deduplicate: while the boxes overlap, every poll
      signals the gem again. */
  lemma {:induction false} OverlapFiresEveryPoll(id: int, polls: seq<Measurement>)
    requires forall k :: 0 <= k < |polls| ==> Collides(OrDefault(polls[k].gemBox), OrDefault(polls[k].dinoBox))
    ensures Signals(id, polls) == seq(|polls|, _ => id)
  {
    if polls != [] {
      OverlapFiresEveryPoll(id, polls[1..]);
    }
  }

  /** Without any overlap, no poll signals. */
  lemma {:induction false} NoOverlapNeverFires(id: int, polls: seq<Measurement>)
    requires forall k :: 0 <= k < |polls| ==> !Collides(OrDefault(polls[k].gemBox), OrDefault(polls[k].dinoBox))
    ensures Signals(id, polls) == []
  {
    if polls != [] {
      NoOverlapNeverFires(id, polls[1..]);
    }
  }

  /** The signals of two runs of polls, one after the other, are the
      signals of the first followed by those of the second; with the one-poll
      cases this fixes the signals of every mixed run. */
  lemma {:induction false} SignalsAppend(id: int, p: seq<Measurement>, q: seq<Measurement>)
    ensures Signals(id, p + q) == Signals(id, p) + Signals(id, q)
    decreases |p|
  {
    if p != [] {
      assert (p + q)[0] == p[0] && (p + q)[1..] == p[1..] + q;
      SignalsAppend(id, p[1..], q);
    } else {
      assert p + q == q;
    }
  }

  /** One poll signals once on overlap and not at all otherwise. */
  lemma SignalsOfOnePoll(id: int, m: Measurement)
    ensures Signals(id, [m]) == (if Collides(OrDefault(m.gemBox), OrDefault(m.dinoBox)) then [id] else [])
  {
  }

  /** The concrete case: dino (50, 60, 70, 40) and gem (55, 65, 75, 45). */
  lemma ConcreteOverlap(id: int)
    ensures Collides(Rect(55, 65, 75, 45), Rect(50, 60, 70, 40))
    ensures Poll(id, Some(Rect(55, 65, 75, 45)), Some(Rect(50, 60, 70, 40))) == Some(id)
  {
  }
}
