/** The ShimmerImageView widget: an ImageView that sweeps a gradient mask across its image.
    The host view (drawable, layout, size) is passed in as a Host value; whether a bitmap
    allocation succeeds is passed in as a flag. */
module ShimmerView {
  import opened Wrappers
  import opened JvmNumbers
  import opened Masks
  import opened ShimmerState

  class ShimmerImageView {
    var maskSpecs: MaskSpecs
    var isAnimationRunning: bool
    var animation: Option<Animator>
    var maskOffsetX: int32
    var maskBitmap: Option<Bitmap>
    var renderMaskBitmap: Option<Bitmap>
    var maskRenderCanvas: Option<Canvas>
    /** the blend mode of the paint the mask is drawn with */
    var paintMode: BlendMode
    /** layout-change listeners registered and not yet fired */
    var pendingListeners: nat
    /** animators replaced without being cancelled; they keep ticking */
    var orphanedAnimators: seq<Animator>

    /** The widget's fields as a State value. */
    function Snap(): State
      reads this
    {
      State(maskSpecs, isAnimationRunning, animation, maskOffsetX, maskBitmap, renderMaskBitmap,
            maskRenderCanvas, paintMode, pendingListeners, orphanedAnimators)
    }

    predicate Valid()
      reads this
    {
      Inv(Snap())
    }

    /** Valid, except that the paint may still carry the previous specs' mode: the state
        between the maskSpecs setter's assignment and its reset. */
    predicate ValidButPaint()
      reads this
    {
      Inv(Snap().(blend := maskSpecs.maskMode))
    }

    /** A widget built without layout attributes: default specs, stopped. */
    constructor ()
      ensures Valid() && Snap() == Initial()
    {
      maskSpecs := DefaultSpecs;
      isAnimationRunning := false;
      animation := None;
      maskOffsetX := 0;
      maskBitmap := None;
      renderMaskBitmap := None;
      maskRenderCanvas := None;
      paintMode := DefaultSpecs.maskMode;
      pendingListeners := 0;
      orphanedAnimators := [];
    }

    method StartAnimation(host: Host)
      requires Valid()
      modifies this
      ensures Valid() && Snap() == StartSpec(old(Snap()), host)
    {
      if isAnimationRunning {
        return;
      }
      if !host.hasDrawable {
        isAnimationRunning := false;
        return;
      }
      isAnimationRunning := true;
      RunAfterLaidOut(host);
    }

    method RunAfterLaidOut(host: Host)
      requires Valid()
      modifies this
      ensures Valid() && Snap() == RunAfterLaidOutSpec(old(Snap()), host)
    {
      if host.laidOut {
        LaidOutBlock(host.width);
        return;
      }
      pendingListeners := pendingListeners + 1;
    }

    /** The block deferred by startAnimation. */
    method LaidOutBlock(width: int32)
      requires Valid()
      modifies this
      ensures Valid() && Snap() == LaidOutBlockSpec(old(Snap()), width)
    {
      // If the animation was cancelled meanwhile, do not start it.
      if !isAnimationRunning {
        return;
      }
      if animation.Some? {
        orphanedAnimators := orphanedAnimators + [animation.value];
      }
      animation := Some(BuildAnimator(maskSpecs, width));
    }

    /** A pending layout-change listener fires: it removes itself, then runs the block. */
    method OnLayoutChange(host: Host)
      requires Valid() && pendingListeners > 0
      modifies this
      ensures Valid() && Snap() == ListenerSpec(old(Snap()), host)
    {
      pendingListeners := pendingListeners - 1;
      LaidOutBlock(host.width);
    }

    method StopAnimation()
      modifies this
      ensures old(Valid()) ==> Valid()
      ensures Snap() == StopSpec(old(Snap()))
    {
      animation := None;
      isAnimationRunning := false;
      maskOffsetX := 0;
      maskBitmap := None;
      SetRenderMaskBitmap(None);
    }

    method ResetAnimation(host: Host)
      requires ValidButPaint()
      modifies this
      ensures Valid() && Snap() == ResetSpec(old(Snap()), host)
    {
      var animationStarted := isAnimationRunning;
      StopAnimation();
      paintMode := maskSpecs.maskMode;
      if animationStarted {
        StartAnimation(host);
      }
    }

    /** The maskSpecs setter. */
    method SetMaskSpecs(value: MaskSpecs, host: Host)
      requires Valid()
      modifies this
      ensures Valid() && Snap() == SetSpecsSpec(old(Snap()), value, host)
    {
      maskSpecs := value;
      ResetAnimation(host);
    }

    method OnLayout(changed: bool, host: Host)
      requires Valid()
      modifies this
      ensures Valid() && Snap() == OnLayoutSpec(old(Snap()), changed, host)
    {
      if changed {
        ResetAnimation(host);
      }
    }

    method OnDetachedFromWindow()
      requires Valid()
      modifies this
      ensures Valid() && Snap() == StopSpec(old(Snap()))
    {
      StopAnimation();
    }

    /** The animator update listener: a live animator reports `value`. */
    method OnAnimationUpdate(value: int32)
      requires Valid() && TickPossible(Snap(), value)
      modifies this
      ensures Valid() && Snap() == old(Snap()).(offset := value)
    {
      maskOffsetX := value;
    }

    /** The observable delegate of renderMaskBitmap: every assignment rebuilds the canvas. */
    method SetRenderMaskBitmap(b: Option<Bitmap>)
      modifies this
      ensures Snap() == old(Snap()).(renderBitmap := b, renderCanvas := CanvasFor(b))
    {
      renderMaskBitmap := b;
      maskRenderCanvas := if b.Some? then Some(Canvas(b.value)) else None;
    }

    method DrawMaskUsingBitmap(host: Host, renderAllocates: bool, maskAllocates: bool) returns (frame: Frame)
      requires Valid()
      modifies this
      ensures Valid()
      ensures Snap() == DrawSpec(old(Snap()), host, renderAllocates, maskAllocates).state
      ensures frame == DrawSpec(old(Snap()), host, renderAllocates, maskAllocates).frame
    {
      if !isAnimationRunning {
        return NoShimmer;
      }
      var target := TryObtainRenderMaskBitmap(host, renderAllocates);
      if target.None? {
        return NoShimmer;
      }
      var pass := DrawMaskToBitmap(host, maskAllocates);
      frame := Shimmer(target.value, pass);
    }

    method TryObtainRenderMaskBitmap(host: Host, allocates: bool) returns (b: Option<Bitmap>)
      requires Valid() && isAnimationRunning
      modifies this
      ensures Valid() && isAnimationRunning
      ensures (Snap(), b) == ObtainRenderBitmap(old(Snap()), host, allocates)
    {
      if renderMaskBitmap.Some? {
        return renderMaskBitmap;
      }
      b := CreateBitmap(host.width, host.height, allocates);
      if b.Some? {
        SetRenderMaskBitmap(b);
      }
    }

    method DrawMaskToBitmap(host: Host, allocates: bool) returns (pass: Option<MaskPass>)
      requires Valid() && isAnimationRunning
      modifies this
      ensures Valid()
      ensures (Snap(), pass) == DrawMaskToBitmapSpec(old(Snap()), host, allocates)
    {
      var bitmap := GetMaskBitmap(host, allocates);
      if bitmap.None? {
        return None;
      }
      if maskRenderCanvas.None? {
        return None;
      }
      var m := bitmap.value;
      var clip := Rect(maskOffsetX as int, 0, maskOffsetX as int + m.width as int, m.height as int);
      pass := Some(MaskPass(clip, m, maskOffsetX as int, paintMode));
    }

    method GetMaskBitmap(host: Host, allocates: bool) returns (b: Option<Bitmap>)
      requires Valid() && isAnimationRunning
      modifies this
      ensures Valid() && isAnimationRunning
      ensures (Snap(), b) == ObtainMaskBitmap(old(Snap()), host, allocates)
    {
      if maskBitmap.Some? {
        return maskBitmap;
      }
      b := CreateBitmap(host.width, host.height, allocates);
      maskBitmap := b;
    }
  }
}
