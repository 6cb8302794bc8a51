/** The odyexp viewer's start-up settings and message handling
    (crates/odyexp-viewer/src/viewer.rs): the camera settings read from the
    start URI's query, and `update`, which applies each received message to
    the shared context (the loaded file, the list of animation frames and the
    playback position) and then forwards it to the panels. */
module OdyViewer {
  import opened Wrappers
  import opened OdyMessages
  import opened OdySearch

  // ---------------------------------------------------------------------------
  // Camera settings from the query

  /** The camera settings `Viewer::new` reads from the query (viewer.rs:36-51);
      the yaw and pitch limits are outside the model. */
  datatype CameraSettings = CameraSettings(focal: real, radius: real, minRadius: real, maxRadius: real)

  const DEFAULT_SETTINGS: CameraSettings := CameraSettings(0.5, 4.0, 1.0, 10.0)

  /** `params.get(key).and_then(parse).unwrap_or(default)`; `parse` is the
      float parser, `None` where the text is not a number. */
  function ParamOr(params: map<string, string>, key: string, parse: string -> Option<real>, default: real): real
  {
    if key in params && parse(params[key]).Some? then parse(params[key]).value else default
  }

  /** The settings of a parsed query. */
  function SettingsFrom(params: map<string, string>, parse: string -> Option<real>): CameraSettings
  {
    CameraSettings(
      ParamOr(params, "focal", parse, DEFAULT_SETTINGS.focal),
      ParamOr(params, "radius", parse, DEFAULT_SETTINGS.radius),
      ParamOr(params, "min_radius", parse, DEFAULT_SETTINGS.minRadius),
      ParamOr(params, "max_radius", parse, DEFAULT_SETTINGS.maxRadius))
  }

  /** The settings for an optional start URI, read as a query string; a missing
      URI reads as the empty query (viewer.rs:34). */
  function StartSettings(startUri: Option<string>, decode: string -> Option<string>,
                         parse: string -> Option<real>): CameraSettings
  {
    SettingsFrom(SearchParams(startUri.GetOr(""), decode), parse)
  }

  /** Each setting is its parameter's number when the query has that parameter
      and it parses, and its default otherwise. */
  lemma SettingFallsBack(params: map<string, string>, parse: string -> Option<real>)
    ensures var s := SettingsFrom(params, parse);
            && ("focal" !in params || parse(params["focal"]).None? ==> s.focal == 0.5)
            && ("radius" !in params || parse(params["radius"]).None? ==> s.radius == 4.0)
            && ("min_radius" !in params || parse(params["min_radius"]).None? ==> s.minRadius == 1.0)
            && ("max_radius" !in params || parse(params["max_radius"]).None? ==> s.maxRadius == 10.0)
    ensures var s := SettingsFrom(params, parse);
            && ("focal" in params && parse(params["focal"]).Some? ==> s.focal == parse(params["focal"]).value)
            && ("radius" in params && parse(params["radius"]).Some? ==> s.radius == parse(params["radius"]).value)
            && ("min_radius" in params && parse(params["min_radius"]).Some? ==>
                  s.minRadius == parse(params["min_radius"]).value)
            && ("max_radius" in params && parse(params["max_radius"]).Some? ==>
                  s.maxRadius == parse(params["max_radius"]).value)
  {
  }

  /** Without a start URI, or with an empty query, every setting is its
      default, whatever the decoder and the number parser. */
  lemma NoQueryGivesDefaults(startUri: Option<string>, decode: string -> Option<string>,
                             parse: string -> Option<real>)
    requires startUri.None? || startUri == Some("") || startUri == Some("?")
    ensures StartSettings(startUri, decode, parse) == DEFAULT_SETTINGS
  {
    EmptyQuery(startUri.GetOr(""), decode);
  }

  // ---------------------------------------------------------------------------
  // The context the messages update

  /** Rust's `Vec::truncate`: keep at most the first `n` entries. */
  function Truncate<T>(s: seq<T>, n: nat): (r: seq<T>)
    ensures |r| == if n < |s| then n else |s|
    ensures r <= s
  {
    if n < |s| then s[..n] else s
  }

  /** The fields of the context `update` writes: the loaded file's name, the
      animation frames received so far, the playback position, and the up
      axis the model transform was last built from (the identity transform
      is the one built from the y axis). */
  datatype ContextState = ContextState(filename: Option<string>, viewSplats: seq<SplatsRef>,
                                       frame: real, modelUp: Vec3)

  const Y_AXIS: Vec3 := Vec3(0.0, 1.0, 0.0)

  /** The context part of `update` for one message (viewer.rs:128-145). */
  function Step(s: ContextState, m: Message): ContextState
  {
    match m
    case ViewSplats(upAxis, splats, frame) =>
      s.(modelUp := upAxis, viewSplats := Truncate(s.viewSplats, frame) + [splats],
         frame := frame as real - 0.5)
    case StartLoading(filename) =>
      s.(filename := Some(filename), viewSplats := [])
    case _ => s
  }

  /** A frame numbered `f` lands at index `min(f, len)`: the frames before it
      are kept, the ones after it are dropped, and playback is put half a frame
      before it. */
  lemma ViewSplatsStep(s: ContextState, upAxis: Vec3, splats: SplatsRef, f: nat)
    ensures var t := Step(s, ViewSplats(upAxis, splats, f));
            var keep := if f < |s.viewSplats| then f else |s.viewSplats|;
            && |t.viewSplats| == keep + 1
            && t.viewSplats[..keep] == s.viewSplats[..keep]
            && t.viewSplats[keep] == splats
            && t.frame == f as real - 0.5
            && t.filename == s.filename
  {
  }

  /** A new load names the file and forgets every frame; the other messages
      leave the context alone. */
  lemma OtherMessagesKeepContext(s: ContextState, m: Message)
    ensures m.StartLoading? ==> Step(s, m) == s.(filename := Some(m.filename), viewSplats := [])
    ensures m.NewSource? || m.Error? || m.DoneLoading? ==> Step(s, m) == s
  {
  }

  /** The context after a run of messages. */
  function Run(s: ContextState, messages: seq<Message>): ContextState
  {
    if messages == [] then s else Step(Run(s, messages[..|messages| - 1]), messages[|messages| - 1])
  }

  /** The frame messages of a load, numbered from 0. */
  function FrameMessages(upAxis: Vec3, splats: seq<SplatsRef>): (r: seq<Message>)
    ensures |r| == |splats|
    ensures forall i :: 0 <= i < |r| ==> r[i] == ViewSplats(upAxis, splats[i], i)
  {
    if splats == [] then [] else FrameMessages(upAxis, splats[..|splats| - 1]) + [ViewSplats(upAxis, splats[|splats| - 1], |splats| - 1)]
  }

  /** An animation whose frames arrive in order after `StartLoading` ends up
      with its frames in order in the list, each at its own frame number, and
      playback half a frame before the last one. */
  lemma {:induction false} FramesInOrder(s: ContextState, filename: string, upAxis: Vec3, splats: seq<SplatsRef>)
    ensures Run(s, [StartLoading(filename)] + FrameMessages(upAxis, splats)).viewSplats == splats
    ensures Run(s, [StartLoading(filename)] + FrameMessages(upAxis, splats)).filename == Some(filename)
    ensures splats != [] ==>
              Run(s, [StartLoading(filename)] + FrameMessages(upAxis, splats)).frame == (|splats| - 1) as real - 0.5
  {
    var msgs := [StartLoading(filename)] + FrameMessages(upAxis, splats);
    if splats == [] {
      assert msgs[..0] == [];
    } else {
      var init := splats[..|splats| - 1];
      FramesInOrder(s, filename, upAxis, init);
      assert msgs[..|msgs| - 1] == [StartLoading(filename)] + FrameMessages(upAxis, init);
      assert init + [splats[|splats| - 1]] == splats;
    }
  }

  /** A refinement of an earlier frame replaces it and drops every later frame
      (the decoder sends the intermediate splats of a frame before its final
      ones). */
  lemma RefinementDropsLater(s: ContextState, upAxis: Vec3, splats: SplatsRef, f: nat)
    requires f < |s.viewSplats|
    ensures Step(s, ViewSplats(upAxis, splats, f)).viewSplats == s.viewSplats[..f] + [splats]
  {
  }

  /** The context fields `update` writes. */
  class OdyContext {
    var filename: Option<string>
    var viewSplats: seq<SplatsRef>
    var frame: real
    var modelUp: Vec3

    function State(): ContextState
      reads this
    {
      ContextState(filename, viewSplats, frame, modelUp)
    }

    /** `ViewerContext::new` (app_context.rs:103-114). */
    constructor ()
      ensures State() == ContextState(None, [], 0.0, Y_AXIS)
    {
      filename := None;
      viewSplats := [];
      frame := 0.0;
      modelUp := Y_AXIS;
    }

    /** The context part of `update` for one message: set the up axis,
        truncate then push the frame list and move playback for ViewSplats;
        record the file and clear the frames for StartLoading. */
    method Apply(m: Message)
      modifies this
      ensures State() == Step(old(State()), m)
    {
      match m {
        case ViewSplats(upAxis, splats, f) =>
          modelUp := upAxis;
          viewSplats := Truncate(viewSplats, f);
          viewSplats := viewSplats + [splats];
          frame := f as real - 0.5;
        case StartLoading(name) =>
          filename := Some(name);
          viewSplats := [];
        case _ =>
      }
    }
  }

  /** The three panels `update` forwards each message to. */
  datatype PanelSlot = TopPanel | MainPanel | Toolbar

  /** The deliveries for a run of messages: each message to the top panel,
      the main panel and the toolbar, in that order. */
  function Deliveries(messages: seq<Message>): (r: seq<(PanelSlot, Message)>)
    ensures |r| == 3 * |messages|
    ensures forall i :: 0 <= i < |messages| ==>
              r[3 * i] == (TopPanel, messages[i]) && r[3 * i + 1] == (MainPanel, messages[i])
              && r[3 * i + 2] == (Toolbar, messages[i])
  {
    if messages == [] then []
    else
      var init := Deliveries(messages[..|messages| - 1]);
      var m := messages[|messages| - 1];
      assert forall i :: 0 <= i < |messages| - 1 ==> messages[..|messages| - 1][i] == messages[i];
      init + [(TopPanel, m), (MainPanel, m), (Toolbar, m)]
  }

  /** `update` (viewer.rs:119-153) on the messages drained from the receiver:
      each one updates the context and is then delivered to the panels. The
      result is the list of deliveries, in order. */
  method Update(context: OdyContext, messages: seq<Message>) returns (delivered: seq<(PanelSlot, Message)>)
    modifies context
    ensures context.State() == Run(old(context.State()), messages)
    ensures delivered == Deliveries(messages)
  {
    delivered := [];
    var i := 0;
    while i < |messages|
      invariant 0 <= i <= |messages|
      invariant context.State() == Run(old(context.State()), messages[..i])
      invariant delivered == Deliveries(messages[..i])
    {
      assert messages[..i + 1][..i] == messages[..i];
      context.Apply(messages[i]);
      delivered := delivered + [(TopPanel, messages[i]), (MainPanel, messages[i]), (Toolbar, messages[i])];
      i := i + 1;
    }
    assert messages[..i] == messages;
  }
}
