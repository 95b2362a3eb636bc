/**
 * The two sprite kinds of the background: a plain `Sprite` that only moves and
 * an `AnimatedSprite` that also cycles through the frames of a sprite sheet.
 * The two-level class hierarchy becomes one datatype with a variant per class;
 * the operations that update a sprite in place return the updated value.
 */
module Sprites {
  import opened Wrappers
  import opened Numbers

  /** A point or a velocity on the canvas. */
  datatype Vec2 = Vec2(x: real, y: real)

  function Add(a: Vec2, b: Vec2): Vec2 {
    Vec2(a.x + b.x, a.y + b.y)
  }

  /** A bitmap: the empty element made by `new Image()`, or a loaded picture or frame. */
  datatype Image = EmptyImage | Picture(handle: nat)

  /**
   * `Static` is a `Sprite`; `Animated` is an `AnimatedSprite`, whose `frameCount`
   * and `current` are the fields `frame_count` and `current_frame`.
   */
  datatype Sprite =
    | Static(pos: Vec2, vel: Vec2, image: Image, size: real)
    | Animated(pos: Vec2, vel: Vec2, image: Image, size: real,
               frames: seq<Image>, frameCount: int, current: int)

  /** An animated sprite whose frame index can be shown and stepped. */
  predicate WellFormed(s: Sprite) {
    s.Animated? ==> s.frameCount == |s.frames| && 0 < s.frameCount && 0 <= s.current < s.frameCount
  }

  /** What `step` needs: `stepAnimation` divides by `frame_count`. */
  predicate Steppable(s: Sprite) {
    s.Animated? ==> s.frameCount > 0
  }

  /** Whether the velocity is exactly (0, 0); such sprites are never wrapped. */
  predicate IsStill(s: Sprite) {
    s.vel.x == 0.0 && s.vel.y == 0.0
  }

  /** The `AnimatedSprite` constructor; the size is fixed at 1 whatever the caller intends. */
  function NewAnimatedSprite(pos: Vec2, vel: Vec2, frames: seq<Image>): (s: Sprite)
    ensures s.Animated? && s.pos == pos && s.vel == vel && s.frames == frames
    ensures s.image == EmptyImage && s.size == 1.0
    ensures s.current == 0 && s.frameCount == |frames|
    ensures WellFormed(s) <==> |frames| > 0
  {
    Animated(pos, vel, EmptyImage, 1.0, frames, |frames|, 0)
  }

  /**
   * `getImage`: an animated sprite shows `frames[current_frame]`, which is
   * `undefined` when the index is out of range.
   */
  function GetImage(s: Sprite): (r: Option<Image>)
    ensures s.Static? ==> r == Some(s.image)
    ensures s.Animated? ==> (r.Some? <==> 0 <= s.current < |s.frames|)
    ensures r.Some? && s.Animated? ==> r.value in s.frames
    ensures WellFormed(s) ==> r.Some?
  {
    match s
    case Static(_, _, image, _) => Some(image)
    case Animated(_, _, _, _, frames, _, current) =>
      if 0 <= current < |frames| then Some(frames[current]) else None
  }

  /** `stepMotion`: the position moves by the velocity; nothing else changes. */
  function StepMotion(s: Sprite): (r: Sprite)
    ensures r.pos.x == s.pos.x + s.vel.x && r.pos.y == s.pos.y + s.vel.y
    ensures r.(pos := s.pos) == s
    ensures IsStill(s) ==> r == s
  {
    s.(pos := Add(s.pos, s.vel))
  }

  /** `stepAnimation`: the frame index advances by one and wraps to 0 after the last frame. */
  function StepAnimation(s: Sprite): (r: Sprite)
    requires s.Animated? && s.frameCount > 0
    ensures r.Animated? && r.(current := s.current) == s
    ensures 0 <= s.current < s.frameCount ==>
      r.current == if s.current + 1 == s.frameCount then 0 else s.current + 1
    ensures WellFormed(s) ==> WellFormed(r)
  {
    s.(current := JsRem(s.current + 1, s.frameCount))
  }

  /** `step` of either class: move, and for an animated sprite also advance the frame. */
  function Step(s: Sprite): (r: Sprite)
    requires Steppable(s)
    ensures r.pos == Add(s.pos, s.vel) && r.vel == s.vel && r.size == s.size
    ensures r.Static? <==> s.Static?
    ensures s.Static? ==> r.(pos := s.pos) == s
    ensures s.Animated? ==> r.(pos := s.pos) == StepAnimation(s)
    ensures IsStill(s) ==> r.pos == s.pos
    ensures Steppable(r) && (WellFormed(s) ==> WellFormed(r))
  {
    match s
    case Static(_, _, _, _) => StepMotion(s)
    case Animated(_, _, _, _, _, _, _) => StepAnimation(StepMotion(s))
  }

  /** `k` successive calls of `stepAnimation`. */
  function Animate(s: Sprite, k: nat): (r: Sprite)
    requires s.Animated? && s.frameCount > 0
    ensures r.Animated? && r.(current := s.current) == s
    decreases k
  {
    if k == 0 then s else StepAnimation(Animate(s, k - 1))
  }

  /** Any number of frame steps keeps a well-formed sprite's frame index in range. */
  lemma {:induction false} AnimateStaysInRange(s: Sprite, k: nat)
    requires s.Animated? && WellFormed(s)
    ensures WellFormed(Animate(s, k)) && GetImage(Animate(s, k)).Some?
    decreases k
  {
    if k > 0 {
      AnimateStaysInRange(s, k - 1);
    }
  }

  /** Within one period the frame index is the start index plus `k`, wrapped once. */
  lemma {:induction false} AnimateWithinPeriod(s: Sprite, k: nat)
    requires s.Animated? && WellFormed(s) && k <= s.frameCount
    ensures Animate(s, k).current ==
      if s.current + k < s.frameCount then s.current + k else s.current + k - s.frameCount
    decreases k
  {
    if k > 0 {
      AnimateWithinPeriod(s, k - 1);
      AnimateStaysInRange(s, k - 1);
    }
  }

  /** `frame_count` consecutive frame steps bring a sprite back to where it started. */
  lemma AnimationPeriod(s: Sprite)
    requires s.Animated? && WellFormed(s)
    ensures Animate(s, s.frameCount) == s
  {
    AnimateWithinPeriod(s, s.frameCount);
  }
}
