/**
 * Scroll-triggered reveal: the skill cards, timeline entries, project cards,
 * education and certification items start hidden (opacity 0, shifted down)
 * and each is shown for good once its top edge rises above
 * `innerHeight / 1.2`. Layout values are exact reals here.
 */
module ScrollReveal {

  /** `element.getBoundingClientRect().top < window.innerHeight / 1.2` */
  predicate InView(top: real, innerHeight: real) {
    top < innerHeight / 1.2
  }

  /** The layout one `animateElements` run reads: each element's top and the viewport height. */
  datatype Frame = Frame(tops: seq<real>, innerHeight: real)

  /** The visibility flags after one run over `frame`. */
  function Pass(shown: seq<bool>, frame: Frame): (r: seq<bool>)
    requires |frame.tops| == |shown|
  {
    seq(|shown|, k requires 0 <= k < |shown| => shown[k] || InView(frame.tops[k], frame.innerHeight))
  }

  ghost predicate Fits(n: nat, frames: seq<Frame>) {
    forall f | 0 <= f < |frames| :: |frames[f].tops| == n
  }

  /** The visibility flags after one run per frame, in order. */
  function AfterScrolls(shown: seq<bool>, frames: seq<Frame>): (r: seq<bool>)
    requires Fits(|shown|, frames)
    ensures |r| == |shown|
    decreases frames
  {
    if frames == [] then shown
    else AfterScrolls(Pass(shown, frames[0]), frames[1..])
  }

  /** No run ever hides an element that is shown. */
  lemma {:induction false} RevealIsMonotone(shown: seq<bool>, frames: seq<Frame>, k: int)
    requires Fits(|shown|, frames)
    requires 0 <= k < |shown| && shown[k]
    ensures AfterScrolls(shown, frames)[k]
    decreases frames
  {
    if frames != [] {
      RevealIsMonotone(Pass(shown, frames[0]), frames[1..], k);
    }
  }

  /**
   * After a series of runs an element is shown exactly when it was shown
   * before them or its top was above the threshold in one of them; from the
   * initial all-hidden state, exactly when it was above the threshold once.
   */
  lemma {:induction false} ShownIffEverInView(shown: seq<bool>, frames: seq<Frame>, k: int)
    requires Fits(|shown|, frames)
    requires 0 <= k < |shown|
    ensures AfterScrolls(shown, frames)[k] <==>
              shown[k] || exists f | 0 <= f < |frames| :: InView(frames[f].tops[k], frames[f].innerHeight)
    decreases frames
  {
    if frames != [] {
      var next := Pass(shown, frames[0]);
      ShownIffEverInView(next, frames[1..], k);
      assert forall f | 0 <= f < |frames| - 1 :: frames[1..][f] == frames[f + 1];
      if exists f | 0 <= f < |frames| :: InView(frames[f].tops[k], frames[f].innerHeight) {
        var f :| 0 <= f < |frames| && InView(frames[f].tops[k], frames[f].innerHeight);
        if f > 0 {
          assert InView(frames[1..][f - 1].tops[k], frames[1..][f - 1].innerHeight);
        }
      }
    }
  }

  /** The animated elements, each with its shown flag (opacity 1, no shift). */
  class Reveal {
    const visible: array<bool>

    /** The initial state the setup gives every element: hidden. */
    constructor (count: nat)
      ensures fresh(visible) && visible.Length == count
      ensures forall k | 0 <= k < count :: !visible[k]
    {
      visible := new bool[count](_ => false);
    }

    /** One run of `animateElements`, on scroll or at load. */
    method AnimateElements(tops: seq<real>, innerHeight: real)
      requires |tops| == visible.Length
      modifies visible
      ensures visible[..] == Pass(old(visible[..]), Frame(tops, innerHeight))
      ensures forall k | 0 <= k < visible.Length :: old(visible[k]) ==> visible[k]
    {
      var screenPosition := innerHeight / 1.2;
      for k := 0 to visible.Length
        invariant forall j | 0 <= j < k ::
                    visible[j] == (old(visible[j]) || InView(tops[j], innerHeight))
        invariant forall j | k <= j < visible.Length :: visible[j] == old(visible[j])
      {
        if tops[k] < screenPosition {
          visible[k] := true;
        }
      }
    }
  }
}
