/** The shimmer widget's state as a value, with one function per transition. The class in
    ShimmerView is proved to follow these functions; the lemmas here state what the
    transitions promise, one call at a time and over whole event traces. */
module ShimmerState {
  import opened Wrappers
  import opened JvmNumbers
  import opened Masks

  /** What the host view supplies when an operation runs: whether an image drawable is set,
      whether the view has been laid out (ViewCompat.isLaidOut), and its current size. */
  datatype Host = Host(hasDrawable: bool, laidOut: bool, width: int32, height: int32)

  /** A bitmap is modelled only by its size, a canvas only by the bitmap it draws into. */
  datatype Bitmap = Bitmap(width: int32, height: int32)
  datatype Canvas = Canvas(target: Bitmap)

  /** ValueAnimator's repeat settings. */
  datatype RepeatMode = Restart | Reverse
  const Infinite: int := -1

  /** An int ValueAnimator: the values it interpolates between, its cycle duration and how it
      repeats. Its easing curve and timing belong to the framework. */
  datatype Animator = Animator(
    startValue: int32,
    endValue: int32,
    duration: int64,
    repeatCount: int,
    repeatMode: RepeatMode)

  /** A value an animator can report on a tick. */
  predicate InRange(a: Animator, v: int32) {
    (a.startValue <= v <= a.endValue) || (a.endValue <= v <= a.startValue)
  }

  /** Bitmap.createBitmap(width, height, ARGB_8888), with an OutOfMemoryError caught and turned
      into null; whether memory suffices is supplied by the caller. */
  function CreateBitmap(width: int32, height: int32, allocates: bool): (r: Option<Bitmap>)
    ensures r.Some? <==> allocates
    ensures r.Some? ==> r.value.width == width && r.value.height == height
  {
    if allocates then Some(Bitmap(width, height)) else None
  }

  /** The canvas the observable delegate derives from renderMaskBitmap. */
  function CanvasFor(b: Option<Bitmap>): (r: Option<Canvas>)
    ensures r.Some? <==> b.Some?
    ensures r.Some? ==> r.value.target == b.value
  {
    if b.Some? then Some(Canvas(b.value)) else None
  }

  /** `startWidth`: the view's width plus the lead-in that the start delay adds, with Int
      wrap-around. */
  function LeadInWidth(specs: MaskSpecs, width: int32): (r: int32)
    ensures specs.startDelayed == 0 ==> r == width
    ensures 0 <= width && 0 <= specs.startDelayed && 0 < specs.animationDuration
            && width as int + specs.startDelayed as int / specs.animationDuration as int <= MaxInt32
        ==> r as int == width as int + specs.startDelayed as int / specs.animationDuration as int
  {
    Wrap32(width as int + FloatQuotientToInt(specs.startDelayed, specs.animationDuration) as int)
  }

  /** The animator startAnimation builds once the view is laid out: from -(startWidth + width)
      to width, over animationDuration + startDelayed, repeating forever from the start. */
  function BuildAnimator(specs: MaskSpecs, width: int32): (a: Animator)
    ensures a.endValue == width
    ensures a.repeatCount == Infinite && a.repeatMode == Restart
  {
    var startWidth := LeadInWidth(specs, width);
    Animator(
      Wrap32(-(Wrap32(startWidth as int + width as int) as int)),
      width,
      Wrap64(specs.animationDuration as int + specs.startDelayed as int),
      Infinite,
      Restart)
  }

  /** For a well-formed configuration whose numbers fit, the sweep starts with the mask (as wide
      as the view) wholly left of the view, the lead-in further out, and ends at the view's
      right edge; one cycle lasts the duration plus the delay. */
  lemma SweepStartsAndEndsOffView(specs: MaskSpecs, width: int32)
    requires 0 <= width
    requires 0 < specs.animationDuration && 0 <= specs.startDelayed
    requires 2 * width as int + specs.startDelayed as int / specs.animationDuration as int <= MaxInt32
    requires InInt64(specs.animationDuration as int + specs.startDelayed as int)
    ensures BuildAnimator(specs, width).startValue as int
         == -(2 * width as int + specs.startDelayed as int / specs.animationDuration as int)
    ensures BuildAnimator(specs, width).startValue as int + width as int <= 0
    ensures BuildAnimator(specs, width).endValue == width
    ensures BuildAnimator(specs, width).duration as int
         == specs.animationDuration as int + specs.startDelayed as int
  {
    var q := specs.startDelayed as int / specs.animationDuration as int;
    QuotientOfNonNegatives(specs.startDelayed, specs.animationDuration);
    assert LeadInWidth(specs, width) as int == width as int + q;
    assert Wrap32(LeadInWidth(specs, width) as int + width as int) as int == 2 * width as int + q;
  }

  /** Width 200, duration 1000 and no delay give the range [-400, 200] over 1000 ms. */
  lemma SweepExample()
    ensures BuildAnimator(DefaultSpecs.(animationDuration := 1000), 200)
         == Animator(-400, 200, 1000, Infinite, Restart)
  {
    SweepStartsAndEndsOffView(DefaultSpecs.(animationDuration := 1000), 200);
  }

  /** A zero duration does not fail: the Float quotient is NaN without a delay (lead-in 0) and
      +Infinity with one, which saturates to the largest Int and wraps the range around. */
  lemma ZeroDurationRange(specs: MaskSpecs, width: int32)
    requires specs.animationDuration == 0
    requires 0 <= width <= 0x3FFF_FFFF
    ensures specs.startDelayed == 0 ==> BuildAnimator(specs, width).startValue as int == -2 * width as int
    ensures specs.startDelayed > 0 && 0 < width ==>
      LeadInWidth(specs, width) as int == width as int + MaxInt32 - 0x1_0000_0000
  {
    if specs.startDelayed == 0 {
      assert LeadInWidth(specs, width) as int == width as int;
      assert Wrap32(LeadInWidth(specs, width) as int + width as int) as int == 2 * width as int;
    }
    if specs.startDelayed > 0 && 0 < width {
      var x := width as int + MaxInt32;
      assert LeadInWidth(specs, width) == Wrap32(x);
      assert Wrap32(x) as int == x - 0x1_0000_0000 by {
        assert InInt32(x - 0x1_0000_0000);
        assert Wrap32(x - 0x1_0000_0000) as int == x - 0x1_0000_0000;
      }
    }
  }

  /** Every field of the widget that its lifecycle touches.
      - `pending`: layout-change listeners registered by startAnimation and not yet fired;
      - `orphans`: animators that were started and then replaced in `animation` without being
        cancelled; nothing references them, and they keep ticking. */
  datatype State = State(
    specs: MaskSpecs,
    running: bool,
    animation: Option<Animator>,
    offset: int32,
    maskBitmap: Option<Bitmap>,
    renderBitmap: Option<Bitmap>,
    renderCanvas: Option<Canvas>,
    blend: BlendMode,
    pending: nat,
    orphans: seq<Animator>)

  /** The animators that can still deliver ticks: the referenced one and the orphans. */
  function Live(s: State): (r: seq<Animator>)
    ensures |r| == |s.orphans| + (if s.animation.Some? then 1 else 0)
  {
    (if s.animation.Some? then [s.animation.value] else []) + s.orphans
  }

  /** What every transition keeps:
      - the canvas is derived from the render bitmap (the observable delegate);
      - the paint's blend mode is the current specs' mode;
      - an animator is referenced only while running;
      - the two bitmaps exist only while running;
      - the offset rests at 0 while stopped, unless an orphaned animator moves it. */
  predicate Inv(s: State) {
    && s.renderCanvas == CanvasFor(s.renderBitmap)
    && s.blend == s.specs.maskMode
    && (s.animation.Some? ==> s.running)
    && (!s.running ==> s.maskBitmap.None? && s.renderBitmap.None?)
    && (!s.running && s.orphans == [] ==> s.offset == 0)
  }

  /** A freshly constructed widget with the default specs. */
  function Initial(): (s: State)
    ensures Inv(s)
    ensures !s.running && Live(s) == [] && s.pending == 0 && s.specs == DefaultSpecs
  {
    State(DefaultSpecs, false, None, 0, None, None, None, DefaultSpecs.maskMode, 0, [])
  }

  /** The block startAnimation defers until layout: unless the animation was stopped in the
      meantime, build a new animator. One already referenced is replaced without a cancel. */
  function LaidOutBlockSpec(s: State, width: int32): (r: State)
    ensures !s.running ==> r == s
    ensures s.running ==> r.animation == Some(BuildAnimator(s.specs, width))
    ensures s.running ==> multiset(Live(r)) == multiset(Live(s)) + multiset{BuildAnimator(s.specs, width)}
    ensures s.running && s.animation.Some? ==> s.animation.value in r.orphans
    ensures r.(animation := s.animation, orphans := s.orphans) == s
    ensures s.orphans <= r.orphans
    ensures Inv(s) ==> Inv(r)
  {
    if !s.running then s
    else
      s.(animation := Some(BuildAnimator(s.specs, width)),
         orphans := s.orphans + (if s.animation.Some? then [s.animation.value] else []))
  }

  /** runAfterLaidOut: run the block now if the view is laid out, else register one listener. */
  function RunAfterLaidOutSpec(s: State, h: Host): (r: State)
    ensures !h.laidOut ==> r == s.(pending := s.pending + 1)
    ensures h.laidOut ==> r == LaidOutBlockSpec(s, h.width)
    ensures h.laidOut ==> r.pending == s.pending
    ensures h.laidOut && !s.running ==> r == s
    ensures h.laidOut && s.running ==> r.animation == Some(BuildAnimator(s.specs, h.width))
    ensures r.running == s.running && r.specs == s.specs && r.offset == s.offset
    ensures r.maskBitmap == s.maskBitmap && r.renderBitmap == s.renderBitmap
    ensures s.orphans <= r.orphans
    ensures Inv(s) ==> Inv(r)
  {
    if h.laidOut then LaidOutBlockSpec(s, h.width) else s.(pending := s.pending + 1)
  }

  /** startAnimation. */
  function StartSpec(s: State, h: Host): (r: State)
    ensures s.running ==> r == s
    ensures !s.running && !h.hasDrawable ==> r == s
    ensures r.running <==> s.running || h.hasDrawable
    ensures !s.running && h.hasDrawable && h.laidOut ==>
      r.animation == Some(BuildAnimator(s.specs, h.width)) && r.pending == s.pending
    ensures !s.running && h.hasDrawable && !h.laidOut ==>
      r.animation == s.animation && r.pending == s.pending + 1
    ensures r.specs == s.specs && r.blend == s.blend && r.offset == s.offset
    ensures r.maskBitmap == s.maskBitmap && r.renderBitmap == s.renderBitmap
    ensures Inv(s) ==> r.orphans == s.orphans
    ensures Inv(s) ==> Inv(r)
  {
    if s.running then s
    else if !h.hasDrawable then s.(running := false)
    else RunAfterLaidOutSpec(s.(running := true), h)
  }

  /** A pending layout-change listener fires: it unregisters itself, then runs the block with
      the view's width at that moment. */
  function ListenerSpec(s: State, h: Host): (r: State)
    requires s.pending > 0
    ensures r.pending == s.pending - 1
    ensures !s.running ==> r == s.(pending := s.pending - 1)
    ensures s.running ==> r.animation == Some(BuildAnimator(s.specs, h.width))
    ensures s.running && s.animation.Some? ==> s.animation.value in r.orphans
    ensures s.running ==> r.orphans == s.orphans + (if s.animation.Some? then [s.animation.value] else [])
    ensures r.(animation := s.animation, orphans := s.orphans, pending := s.pending) == s
    ensures s.orphans <= r.orphans
    ensures Inv(s) ==> Inv(r)
  {
    LaidOutBlockSpec(s.(pending := s.pending - 1), h.width)
  }

  /** stopAnimation: cancel the referenced animator and clear everything the animation owns.
      Pending listeners are not removed, and orphans are out of reach. */
  function StopSpec(s: State): (r: State)
    ensures !r.running && r.animation.None? && r.offset == 0
    ensures r.maskBitmap.None? && r.renderBitmap.None? && r.renderCanvas.None?
    ensures r.pending == s.pending && r.orphans == s.orphans && Live(r) == s.orphans
    ensures r.specs == s.specs && r.blend == s.blend
    ensures Inv(s) ==> Inv(r)
  {
    s.(animation := None, running := false, offset := 0,
       maskBitmap := None, renderBitmap := None, renderCanvas := None)
  }

  /** Stopping twice leaves the state stopping once leaves. */
  lemma StopIdempotent(s: State)
    ensures StopSpec(StopSpec(s)) == StopSpec(s)
  {
  }

  /** resetAnimation: remember whether running, stop, point the paint at the current mode and
      start again if it was running. */
  function ResetSpec(s: State, h: Host): (r: State)
    ensures Inv(r)
    ensures r.blend == s.specs.maskMode && r.specs == s.specs
    ensures h.hasDrawable ==> r.running == s.running
    ensures !h.hasDrawable ==> !r.running
    ensures r.offset == 0 && r.maskBitmap.None? && r.renderBitmap.None?
    ensures r.running && h.laidOut ==> r.animation == Some(BuildAnimator(s.specs, h.width)) && r.pending == s.pending
    ensures r.running && !h.laidOut ==> r.animation.None? && r.pending == s.pending + 1
    ensures !r.running ==> r.animation.None? && r.pending == s.pending
    ensures r.orphans == s.orphans
  {
    var stopped := StopSpec(s).(blend := s.specs.maskMode);
    if s.running then StartSpec(stopped, h) else stopped
  }

  /** The maskSpecs setter: store the new value, then reset. */
  function SetSpecsSpec(s: State, specs: MaskSpecs, h: Host): (r: State)
    ensures Inv(r)
    ensures r.specs == specs && r.blend == specs.maskMode
    ensures h.hasDrawable ==> r.running == s.running
    ensures r.offset == 0 && r.maskBitmap.None? && r.renderBitmap.None?
    ensures !h.hasDrawable ==> !r.running
    ensures r.running && h.laidOut ==> r.animation == Some(BuildAnimator(specs, h.width)) && r.pending == s.pending
    ensures r.running && !h.laidOut ==> r.animation.None? && r.pending == s.pending + 1
    ensures !r.running ==> r.animation.None? && r.pending == s.pending
    ensures r.orphans == s.orphans
  {
    ResetSpec(s.(specs := specs), h)
  }

  /** onLayout: a changed layout resets; an unchanged one leaves everything as it was. */
  function OnLayoutSpec(s: State, changed: bool, h: Host): (r: State)
    ensures !changed ==> r == s
    ensures changed ==> Inv(r) && r.offset == 0 && r.maskBitmap.None? && r.renderBitmap.None?
    ensures changed && h.hasDrawable ==> r.running == s.running
    ensures changed && !h.hasDrawable ==> !r.running
    ensures r.specs == s.specs && r.orphans == s.orphans
    ensures changed ==> r.blend == s.specs.maskMode
    ensures changed && r.running && h.laidOut ==> r.animation == Some(BuildAnimator(s.specs, h.width)) && r.pending == s.pending
    ensures changed && r.running && !h.laidOut ==> r.animation.None? && r.pending == s.pending + 1
    ensures changed && !r.running ==> r.animation.None? && r.pending == s.pending
  {
    if changed then ResetSpec(s, h) else s
  }

  /** The mask pass of one frame: the clip window on the render canvas and where and how the
      mask bitmap is drawn into it. */
  datatype Rect = Rect(left: int, top: int, right: int, bottom: int)
  datatype MaskPass = MaskPass(clip: Rect, mask: Bitmap, x: int, blend: BlendMode)

  /** What one frame adds on top of the image: nothing, or the render bitmap drawn at (0, 0),
      with or without a fresh mask pass. */
  datatype Frame = NoShimmer | Shimmer(layer: Bitmap, pass: Option<MaskPass>)

  datatype DrawResult = DrawResult(state: State, frame: Frame)

  /** tryObtainRenderMaskBitmap: the cached render bitmap, else a new one (cached, with its
      canvas) if allocation succeeds. */
  function ObtainRenderBitmap(s: State, h: Host, allocates: bool): (r: (State, Option<Bitmap>))
    ensures s.renderBitmap.Some? ==> r == (s, s.renderBitmap)
    ensures s.renderBitmap.None? && allocates ==>
      r.1 == Some(Bitmap(h.width, h.height)) && r.0 == s.(renderBitmap := r.1, renderCanvas := CanvasFor(r.1))
    ensures s.renderBitmap.None? && !allocates ==> r == (s, None)
    ensures r.1 == r.0.renderBitmap
    ensures Inv(s) && s.running ==> Inv(r.0)
  {
    if s.renderBitmap.Some? then (s, s.renderBitmap)
    else
      var b := CreateBitmap(h.width, h.height, allocates);
      if b.Some? then (s.(renderBitmap := b, renderCanvas := CanvasFor(b)), b) else (s, None)
  }

  /** getMaskBitmap: the cached mask, else a new one (cached) if allocation succeeds. */
  function ObtainMaskBitmap(s: State, h: Host, allocates: bool): (r: (State, Option<Bitmap>))
    ensures s.maskBitmap.Some? ==> r == (s, s.maskBitmap)
    ensures s.maskBitmap.None? && allocates ==> r.1 == Some(Bitmap(h.width, h.height))
    ensures r.1.Some? <==> s.maskBitmap.Some? || allocates
    ensures r.0 == s.(maskBitmap := r.1)
    ensures Inv(s) && s.running ==> Inv(r.0)
  {
    if s.maskBitmap.Some? then (s, s.maskBitmap)
    else
      var b := CreateBitmap(h.width, h.height, allocates);
      (s.(maskBitmap := b), b)
  }

  /** drawMaskToBitmap: without a mask nothing is drawn into the render canvas; with one, the
      canvas is clipped to the mask's window at the current offset and the mask is drawn there
      with the paint's blend mode. */
  function DrawMaskToBitmapSpec(s: State, h: Host, allocates: bool): (r: (State, Option<MaskPass>))
    ensures r.0 == s.(maskBitmap := r.0.maskBitmap)
    ensures s.maskBitmap.Some? ==> r.0 == s
    ensures s.maskBitmap.None? && allocates ==> r.0.maskBitmap == Some(Bitmap(h.width, h.height))
    ensures s.maskBitmap.None? && !allocates ==> r == (s, None)
    ensures r.1.Some? <==> r.0.maskBitmap.Some? && s.renderCanvas.Some?
    ensures r.1.Some? ==>
      var p := r.1.value;
      p.mask == r.0.maskBitmap.value && p.x == s.offset as int && p.blend == s.blend
      && p.clip.left == p.x && p.clip.right - p.clip.left == p.mask.width as int
      && p.clip.top == 0 && p.clip.bottom == p.mask.height as int
  {
    var (t, mask) := ObtainMaskBitmap(s, h, allocates);
    if mask.None? || t.renderCanvas.None? then (t, None)
    else
      var m := mask.value;
      (t, Some(MaskPass(Rect(s.offset as int, 0, s.offset as int + m.width as int, m.height as int),
                        m, s.offset as int, s.blend)))
  }

  /** drawMaskUsingBitmap, run after the image itself is drawn. */
  function DrawSpec(s: State, h: Host, renderAllocates: bool, maskAllocates: bool): (r: DrawResult)
    ensures !s.running ==> r == DrawResult(s, NoShimmer)
    ensures r.state.(maskBitmap := s.maskBitmap, renderBitmap := s.renderBitmap, renderCanvas := s.renderCanvas) == s
    ensures s.renderBitmap.Some? ==> r.state.renderBitmap == s.renderBitmap && r.state.renderCanvas == s.renderCanvas
    ensures s.maskBitmap.Some? ==> r.state.maskBitmap == s.maskBitmap
    ensures r.state.renderBitmap != s.renderBitmap ==>
      s.running && s.renderBitmap.None? && renderAllocates && r.state.renderBitmap == Some(Bitmap(h.width, h.height))
    ensures r.state.maskBitmap != s.maskBitmap ==>
      s.running && r.state.renderBitmap.Some? && s.maskBitmap.None? && maskAllocates
      && r.state.maskBitmap == Some(Bitmap(h.width, h.height))
    ensures s.running && s.renderBitmap.None? && renderAllocates ==>
      r.state.renderBitmap == Some(Bitmap(h.width, h.height)) && r.frame.Shimmer?
    ensures s.running && r.state.renderBitmap.Some? && s.maskBitmap.None? && maskAllocates ==>
      r.state.maskBitmap == Some(Bitmap(h.width, h.height))
    ensures s.running && s.renderBitmap.None? && !renderAllocates ==> r == DrawResult(s, NoShimmer)
    ensures r.frame.Shimmer? <==> s.running && r.state.renderBitmap.Some?
    ensures r.frame.Shimmer? ==> r.frame.layer == r.state.renderBitmap.value
    ensures Inv(s) && r.frame.Shimmer? ==> (r.frame.pass.Some? <==> r.state.maskBitmap.Some?)
    ensures Inv(s) && r.frame.Shimmer? && r.frame.pass.Some? ==>
      var p := r.frame.pass.value;
      p.mask == r.state.maskBitmap.value && p.x == s.offset as int && p.blend == s.specs.maskMode
      && p.clip == Rect(s.offset as int, 0, s.offset as int + p.mask.width as int, p.mask.height as int)
    ensures Inv(s) ==> Inv(r.state)
  {
    if !s.running then DrawResult(s, NoShimmer)
    else
      var (t, target) := ObtainRenderBitmap(s, h, renderAllocates);
      if target.None? then DrawResult(t, NoShimmer)
      else
        var (u, pass) := DrawMaskToBitmapSpec(t, h, maskAllocates);
        DrawResult(u, Shimmer(target.value, pass))
  }

  /** Everything the host can make happen to the widget. */
  datatype Event =
    | StartEvent(host: Host)
    | StopEvent
    | SetSpecsEvent(specs: MaskSpecs, host: Host)
    | LayoutEvent(changed: bool, host: Host)
    | ListenerEvent(host: Host)
    | DetachEvent
    | TickEvent(value: int32)
    | DrawEvent(host: Host, renderAllocates: bool, maskAllocates: bool)

  /** A tick of `value` can arrive only from a live animator whose range holds it. */
  predicate TickPossible(s: State, v: int32) {
    exists a :: a in Live(s) && InRange(a, v)
  }

  /** One event. A listener fires only if one is registered, and a tick only if some live
      animator can produce it; otherwise the event cannot happen and nothing changes. */
  function Step(s: State, e: Event): (r: State)
    ensures e.TickEvent? ==> r.(offset := s.offset) == s
    ensures e.TickEvent? && TickPossible(s, e.value) ==> r.offset == e.value
    ensures e.TickEvent? && !TickPossible(s, e.value) ==> r == s
    ensures e.TickEvent? && r.offset != s.offset ==> exists a :: a in Live(s) && InRange(a, r.offset)
    ensures e.ListenerEvent? && s.pending == 0 ==> r == s
  {
    match e
    case StartEvent(h) => StartSpec(s, h)
    case StopEvent => StopSpec(s)
    case SetSpecsEvent(specs, h) => SetSpecsSpec(s, specs, h)
    case LayoutEvent(changed, h) => OnLayoutSpec(s, changed, h)
    case ListenerEvent(h) => if s.pending > 0 then ListenerSpec(s, h) else s
    case DetachEvent => StopSpec(s)
    case TickEvent(v) => if TickPossible(s, v) then s.(offset := v) else s
    case DrawEvent(h, ra, ma) => DrawSpec(s, h, ra, ma).state
  }

  function Run(s: State, events: seq<Event>): State
    decreases |events|
  {
    if events == [] then s else Run(Step(s, events[0]), events[1..])
  }

  lemma StepPreservesInv(s: State, e: Event)
    requires Inv(s)
    ensures Inv(Step(s, e))
  {
  }

  /** Every trace of host events keeps the invariant. */
  lemma {:induction false} RunPreservesInv(s: State, events: seq<Event>)
    requires Inv(s)
    ensures Inv(Run(s, events))
    decreases |events|
  {
    if events != [] {
      StepPreservesInv(s, events[0]);
      RunPreservesInv(Step(s, events[0]), events[1..]);
    }
  }

  /** No transition ever cancels an orphaned animator: the orphans only accumulate. */
  lemma {:induction false} OrphansOnlyAccumulate(s: State, events: seq<Event>)
    ensures s.orphans <= Run(s, events).orphans
    decreases |events|
  {
    if events != [] {
      var t := Step(s, events[0]);
      assert s.orphans <= t.orphans;
      OrphansOnlyAccumulate(t, events[1..]);
    }
  }

  /** Only a firing layout listener orphans an animator: a trace without one leaves the
      orphans as they were. */
  lemma {:induction false} OrphansNeedListener(s: State, events: seq<Event>)
    requires Inv(s)
    requires forall i :: 0 <= i < |events| ==> !events[i].ListenerEvent?
    ensures Run(s, events).orphans == s.orphans
    decreases |events|
  {
    if events != [] {
      var t := Step(s, events[0]);
      assert t.orphans == s.orphans;
      StepPreservesInv(s, events[0]);
      OrphansNeedListener(t, events[1..]);
    }
  }

  /** Start followed by stop, from a stopped widget with no orphans, leaves it stopped with
      both bitmaps released and no animator that could still tick. */
  lemma StartThenStopLeavesNothingLive(s: State, h: Host, v: int32)
    requires Inv(s) && !s.running && s.orphans == []
    ensures !Run(s, [StartEvent(h), StopEvent]).running
    ensures Run(s, [StartEvent(h), StopEvent]).maskBitmap.None?
    ensures Run(s, [StartEvent(h), StopEvent]).renderBitmap.None?
    ensures Live(Run(s, [StartEvent(h), StopEvent])) == []
    ensures !TickPossible(Run(s, [StartEvent(h), StopEvent]), v)
  {
    var evs := [StartEvent(h), StopEvent];
    assert evs[1..] == [StopEvent];
    assert Run(s, evs) == Run(StartSpec(s, h), [StopEvent]);
    assert Run(StartSpec(s, h), [StopEvent]) == Run(StopSpec(StartSpec(s, h)), []);
  }

  /** Start, stop and start again before the first layout leave two listeners registered and
      no animator yet. */
  lemma StartStopStartLeavesTwoListeners(before: Host)
    requires before.hasDrawable && !before.laidOut
    ensures Run(Initial(), [StartEvent(before), StopEvent, StartEvent(before)])
         == Initial().(running := true, pending := 2)
  {
    var s0 := Initial();
    var s1 := StartSpec(s0, before);
    var s2 := StopSpec(s1);
    var s3 := StartSpec(s2, before);
    assert s3 == s0.(running := true, pending := 2);
    var pre := [StartEvent(before), StopEvent, StartEvent(before)];
    assert pre[1..] == [StopEvent, StartEvent(before)];
    assert pre[1..][1..] == [StartEvent(before)];
    assert Run(s0, pre) == Run(s1, pre[1..]);
    assert Run(s1, pre[1..]) == Run(s2, pre[1..][1..]);
    assert Run(s2, pre[1..][1..]) == Run(s3, []);
  }

  /** When the two listeners left by start, stop, start fire after layout, the second replaces
      the first one's animator without cancelling it; stopping afterwards cancels only the
      second, and the orphan keeps moving the offset of the stopped widget. */
  lemma StartStopStartOrphansAnimator(before: Host, after: Host)
    requires before.hasDrawable && !before.laidOut && after.laidOut
    ensures var s := Run(Initial(), [StartEvent(before), StopEvent, StartEvent(before)]);
            var t := Run(s, [ListenerEvent(after), ListenerEvent(after), StopEvent, TickEvent(after.width)]);
            s.pending == 2 && s.running && s.animation.None?
            && !t.running && t.animation.None? && t.pending == 0
            && t.orphans == [BuildAnimator(DefaultSpecs, after.width)]
            && t.offset == after.width
  {
    StartStopStartLeavesTwoListeners(before);
    var a := BuildAnimator(DefaultSpecs, after.width);
    var s3 := Initial().(running := true, pending := 2);
    var t1 := ListenerSpec(s3, after);
    assert t1 == s3.(animation := Some(a), pending := 1);
    var t2 := ListenerSpec(t1, after);
    assert t2 == s3.(animation := Some(a), pending := 0, orphans := [a]);
    var t3 := StopSpec(t2);
    assert Live(t3) == [a];
    assert InRange(a, after.width);
    var t4 := t3.(offset := after.width);
    var evs := [ListenerEvent(after), ListenerEvent(after), StopEvent, TickEvent(after.width)];
    assert evs[1..] == [ListenerEvent(after), StopEvent, TickEvent(after.width)];
    assert evs[1..][1..] == [StopEvent, TickEvent(after.width)];
    assert evs[1..][1..][1..] == [TickEvent(after.width)];
    assert Run(s3, evs) == Run(t1, evs[1..]);
    assert Run(t1, evs[1..]) == Run(t2, evs[1..][1..]);
    assert Run(t2, evs[1..][1..]) == Run(t3, evs[1..][1..][1..]);
    assert Run(t3, evs[1..][1..][1..]) == Run(t4, []);
  }

  /** A layout change while running restarts the sweep from scratch: the offset is back at 0,
      the animator is rebuilt for the new width, and the next frame allocates both bitmaps at
      the new size. */
  lemma LayoutChangeRebuildsAtNewSize(s: State, h: Host)
    requires Inv(s) && s.running && h.hasDrawable && h.laidOut
    ensures OnLayoutSpec(s, true, h).running
    ensures OnLayoutSpec(s, true, h).offset == 0
    ensures OnLayoutSpec(s, true, h).animation == Some(BuildAnimator(s.specs, h.width))
    ensures DrawSpec(OnLayoutSpec(s, true, h), h, true, true).state.renderBitmap == Some(Bitmap(h.width, h.height))
    ensures DrawSpec(OnLayoutSpec(s, true, h), h, true, true).state.maskBitmap == Some(Bitmap(h.width, h.height))
  {
  }
}
