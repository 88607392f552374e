/** The running page: the anchor built for each target, the `<video>`
    assets, the global list of spawned entities, and the handlers main
    attaches to the tracking events and to the Start and Stop buttons. */
module Scene {
  import opened Wrappers
  import opened Layers
  import opened Overlays
  import Base64
  import Visibility

  /** An anchor entity (`mindar-image-target`): the target index in its
      element id `anchor_${i}`, its overlay children, and whether its
      `object3D` is visible. */
  class Anchor {
    const index: nat
    var children: seq<Entity>
    var visible: bool

    /** A new entity has no children and, like every A-Frame entity, is
        visible until told otherwise. */
    constructor (i: nat)
      ensures index == i && children == [] && visible
    {
      index := i;
      children := [];
      visible := true;
    }

    /** `clearAnchor`: removes the first child until none is left. */
    method Clear()
      modifies this`children
      ensures children == []
    {
      while children != []
        decreases |children|
      {
        children := children[1..];
      }
    }

    /** `setAnchorVisible`. */
    method SetVisible(isVisible: bool)
      modifies this`visible
      ensures visible == isVisible
    {
      visible := isVisible;
    }
  }

  /** Why main throws before it finishes: no targets in the configuration,
      or a video layer whose URL `btoa` rejects. */
  datatype SetupError = NoTargets | UnencodableVideoSrc

  class ArScene {
    /** `anchors` in main, one per target, in target order. */
    var anchors: seq<Anchor>
    /** The clamped layers each target's handlers close over. */
    var targetLayers: seq<seq<LayerEntry>>
    /** `spawnedEntities`. */
    var spawned: seq<Entity>
    /** The `<video>` elements under `#assets`, by element id. */
    var assets: Assets
    /** `activeIndex`. */
    var activeIndex: Option<nat>
    /** The video button's `style.display`; None until main sets it. */
    var videoButton: Option<string>

    /** Every asset sits under its own id and every video plane has its
        asset. */
    predicate RegistryValid()
      reads this`assets, this`spawned
    {
      Keyed(assets) && Backed(spawned, assets)
    }

    /** The scene is in state `s` of the visibility state machine: the
        same active target, and each anchor visible as `s` says. */
    predicate Shows(s: Visibility.State)
      reads this`activeIndex, this`anchors, anchors
    {
      s.active == activeIndex && |s.visible| == |anchors|
      && forall k :: 0 <= k < |anchors| ==> s.visible[k] == anchors[k].visible
    }

    /** Only the active target's anchor can be visible. */
    predicate OnlyActiveVisible()
      reads this`activeIndex, this`anchors, anchors
    {
      forall k :: 0 <= k < |anchors| && anchors[k].visible ==> activeIndex == Some(k)
    }

    /** Anchor `k` is the one with id `anchor_${k}`, so each target has
        its own anchor. */
    predicate Distinct()
      reads this`anchors
    {
      forall k :: 0 <= k < |anchors| ==> anchors[k].index == k
    }

    predicate Valid()
      reads this`anchors, this`targetLayers, this`activeIndex, anchors
    {
      |targetLayers| == |anchors| && Distinct() && OnlyActiveVisible()
    }

    /** The page before main runs: no anchors, no assets, nothing spawned. */
    constructor ()
      ensures anchors == [] && targetLayers == [] && spawned == [] && assets == map[]
      ensures activeIndex == None && videoButton == None
      ensures Valid() && RegistryValid()
    {
      anchors := [];
      targetLayers := [];
      spawned := [];
      assets := map[];
      activeIndex := None;
      videoButton := None;
    }

    /** `addImageLayer`. */
    method AddImageLayer(a: Anchor, src: string)
      modifies a`children, this`spawned
      ensures a.children == old(a.children) + [ImagePlane(src)]
      ensures spawned == old(spawned) + [ImagePlane(src)]
    {
      var e := ImagePlane(src);
      a.children := a.children + [e];
      spawned := spawned + [e];
    }

    /** `addModelLayer`. */
    method AddModelLayer(a: Anchor, src: string)
      modifies a`children, this`spawned
      ensures a.children == old(a.children) + [GltfModel(src)]
      ensures spawned == old(spawned) + [GltfModel(src)]
    {
      var e := GltfModel(src);
      a.children := a.children + [e];
      spawned := spawned + [e];
    }

    /** `ensureVideoAsset`: the asset id for `src`, adding a `<video>` under
        it unless one is there already; None where `btoa` throws, with
        nothing added. */
    method EnsureVideoAsset(src: string) returns (vidId: Option<string>)
      modifies this`assets
      ensures vidId == VideoAssetId(src)
      ensures vidId.Some? ==> assets == Register(old(assets), src)
      ensures vidId.None? ==> assets == old(assets)
    {
      var b64 := Base64.Btoa(src);
      if b64.None? {
        return None;
      }
      var id := VideoIdPrefix + Base64.RemoveAll(b64.value, '=');
      if id !in assets {
        assets := assets[id := src];
      }
      return Some(id);
    }

    /** `addVideoLayer`; `ok` is false where it throws, before anything is
        appended. */
    method AddVideoLayer(a: Anchor, src: string) returns (ok: bool)
      modifies a`children, this`spawned, this`assets
      ensures ok <==> Base64.IsLatin1(src)
      ensures ok ==> a.children == old(a.children) + [VideoPlane(VideoAssetId(src).value)]
      ensures ok ==> spawned == old(spawned) + [VideoPlane(VideoAssetId(src).value)]
      ensures ok ==> assets == Register(old(assets), src)
      ensures !ok ==> a.children == old(a.children) && spawned == old(spawned) && assets == old(assets)
    {
      var vidId := EnsureVideoAsset(src);
      if vidId.None? {
        return false;
      }
      var e := VideoPlane(vidId.value);
      a.children := a.children + [e];
      spawned := spawned + [e];
      return true;
    }

    /** The build of one target's layers onto its anchor: clear the anchor,
        skip layers without `type` or `src`, dispatch on `type`. It stops at
        the first layer that throws, having built the ones before it. */
    method BuildLayers(a: Anchor, layers: seq<LayerEntry>) returns (ok: bool)
      modifies a`children, this`spawned, this`assets
      ensures var f := FirstFailure(layers);
        (ok <==> f == |layers|)
        && a.children == Entities(layers[..f])
        && spawned == old(spawned) + a.children
        && assets == Registered(old(assets), layers[..f])
    {
      a.Clear();
      var k := 0;
      while k < |layers|
        invariant k <= FirstFailure(layers)
        invariant a.children == Entities(layers[..k])
        invariant spawned == old(spawned) + a.children
        invariant |spawned| == |old(spawned)| + |a.children|
        invariant assets == Registered(old(assets), layers[..k])
        decreases |layers| - k
      {
        var l := layers[k];
        LayerStep(layers, k, old(assets));
        if !l.Layer? || l.kind == "" || l.src == "" {
        } else if l.kind == "image" {
          AddImageLayer(a, l.src);
        } else if l.kind == "model" {
          AddModelLayer(a, l.src);
        } else if l.kind == "video" {
          ok := AddVideoLayer(a, l.src);
          if !ok {
            return false;
          }
        }
        k := k + 1;
      }
      assert layers[..k] == layers;
      return true;
    }

    /** The loop of `targetFound` over all anchors: anchor `i` is shown,
        every other one hidden. */
    method ShowOnly(i: nat)
      requires Distinct()
      modifies anchors
      ensures forall k :: 0 <= k < |anchors| ==> anchors[k].visible == (k == i)
      ensures forall k :: 0 <= k < |anchors| ==> anchors[k].children == old(anchors[k].children)
    {
      for j := 0 to |anchors|
        invariant forall k :: 0 <= k < j ==> anchors[k].visible == (k == i)
        invariant forall k :: 0 <= k < |anchors| ==> anchors[k].children == old(anchors[k].children)
      {
        anchors[j].SetVisible(j == i);
      }
    }

    /** The loop of the Start and Stop buttons that hides every anchor. */
    method HideAnchors()
      requires Distinct()
      modifies anchors
      ensures forall k :: 0 <= k < |anchors| ==> !anchors[k].visible
      ensures forall k :: 0 <= k < |anchors| ==> anchors[k].children == old(anchors[k].children)
    {
      for j := 0 to |anchors|
        invariant forall k :: 0 <= k < j ==> !anchors[k].visible
        invariant forall k :: 0 <= k < |anchors| ==> anchors[k].children == old(anchors[k].children)
      {
        anchors[j].SetVisible(false);
      }
    }
  
    /** One turn of main's build loop: a new anchor with the target's layers
        built onto it, hidden once the build has finished. */
    method BuildAnchor(i: nat, layers: seq<LayerEntry>) returns (a: Anchor, ok: bool)
      modifies this`spawned, this`assets
      ensures fresh(a) && a.index == i
      ensures var f := FirstFailure(layers);
        (ok <==> f == |layers|)
        && a.children == Entities(layers[..f])
        && spawned == old(spawned) + a.children
        && assets == Registered(old(assets), layers[..f])
      ensures ok ==> !a.visible && a.children == Entities(layers)
    {
      a := new Anchor(i);
      ok := BuildLayers(a, layers);
      if ok {
        assert layers[..|layers|] == layers;
        a.SetVisible(false);
      }
    }

    /** The first `n` targets are built: one hidden anchor each, in order,
        carrying the entities of that target's layers, and those layers
        recorded for its handlers. */
    ghost predicate Built(ts: seq<Target>, n: nat)
      requires n <= |ts|
      reads this`anchors, this`targetLayers, anchors
    {
      |anchors| == n && targetLayers == TargetLayers(ts)[..n]
      && forall k :: 0 <= k < n ==>
           anchors[k].index == k && !anchors[k].visible && anchors[k].children == Entities(targetLayers[k])
    }

    /** One turn of main's build loop: target `i`'s anchor is built and
        appended; when the build of its layers did not throw, it is hidden
        and its layers are recorded for its handlers. */
    method BuildTarget(ts: seq<Target>, i: nat, ghost sp0: seq<Entity>, ghost m0: Assets) returns (ok: bool)
      requires i < |ts| && Built(ts, i) && BuiltThrough(ts, i, sp0, spawned, m0, assets)
      modifies this`anchors, this`targetLayers, this`spawned, this`assets
      ensures |anchors| == i + 1 && anchors[..i] == old(anchors) && fresh(anchors[i])
      ensures ok ==> Built(ts, i + 1) && BuiltThrough(ts, i + 1, sp0, spawned, m0, assets)
      ensures !ok ==> StoppedAtFailure(ts, sp0, spawned, m0, assets)
    {
      var layers := LayersOf(ts[i]);
      ghost var spPrev, mPrev := spawned, assets;
      var a;
      a, ok := BuildAnchor(i, layers);
      BuildStep(ts, i, sp0, spPrev, spawned, m0, mPrev, assets);
      RecordAnchor(ts, i, a, ok);
    }

    /** The end of one turn of the build loop: the anchor is appended, and
        when its layers were built its target's layers are recorded. */
    method RecordAnchor(ts: seq<Target>, i: nat, a: Anchor, ok: bool)
      requires i < |ts| && Built(ts, i) && a.index == i
      requires ok ==> !a.visible && a.children == Entities(LayersOf(ts[i]))
      modifies this`anchors, this`targetLayers
      ensures anchors == old(anchors) + [a]
      ensures ok ==> Built(ts, i + 1)
    {
      anchors := anchors + [a];
      if ok {
        assert TargetLayers(ts)[..i + 1] == TargetLayers(ts)[..i] + [LayersOf(ts[i])];
        targetLayers := targetLayers + [LayersOf(ts[i])];
      }
    }

    /** main's build loop over the targets, in order. It stops at the first
        layer that throws; the entities and assets made before it stay. */
    method BuildTargets(ts: seq<Target>) returns (ok: bool)
      modifies this`anchors, this`targetLayers, this`spawned, this`assets
      ensures var all := AllLayers(ts); var f := FirstFailure(all);
        (ok <==> f == |all|)
        && spawned == old(spawned) + Entities(all[..f])
        && assets == Registered(old(assets), all[..f])
      ensures ok ==> Built(ts, |ts|)
    {
      anchors := [];
      targetLayers := [];
      var i := 0;
      while i < |ts|
        invariant i <= |ts| && Built(ts, i)
        invariant BuiltThrough(ts, i, old(spawned), spawned, old(assets), assets)
      {
        ok := BuildTarget(ts, i, old(spawned), old(assets));
        if !ok {
          return;
        }
        i := i + 1;
      }
      BuiltAll(ts, old(spawned), spawned, old(assets), assets);
      return true;
    }

    /** main after the configuration is loaded: no targets is an error;
        otherwise the targets are built, no target is active, and the video
        button is set for the first target, by the corrected rule
        `VideoButtonDisplay`. */
    method Setup(config: Config) returns (err: Option<SetupError>)
      requires RegistryValid()
      modifies this
      ensures var ts := TargetList(config); var all := AllLayers(ts); var f := FirstFailure(all);
        (err == Some(NoTargets) <==> ts == [])
        && (err.None? <==> ts != [] && f == |all|)
        && (ts == [] ==> spawned == old(spawned) && assets == old(assets))
        && (ts != [] ==> spawned == old(spawned) + Entities(all[..f])
                         && assets == Registered(old(assets), all[..f]))
      ensures TargetList(config) == [] ==> unchanged(this)
      ensures err.None? ==> var ts := TargetList(config);
        Valid() && RegistryValid() && Shows(Visibility.Initial(|ts|))
        && |anchors| == |ts| && targetLayers == TargetLayers(ts)
        && (forall k :: 0 <= k < |ts| ==> anchors[k].children == Entities(LayersOf(ts[k])))
        && videoButton == Some(VideoButtonDisplay(LayersOf(ts[0])))
    {
      var ts := TargetList(config);
      if |ts| == 0 {
        return Some(NoTargets);
      }
      activeIndex := None;
      var ok := BuildTargets(ts);
      if !ok {
        return Some(UnencodableVideoSrc);
      }
      var all := AllLayers(ts);
      assert all[..|all|] == all;
      RegistryAfterBuild(old(assets), old(spawned), all);
      assert TargetLayers(ts)[..|ts|] == TargetLayers(ts);
      assert Valid() && Shows(Visibility.Initial(|ts|));
      videoButton := Some(VideoButtonDisplay(LayersOf(ts[0])));
      err := None;
    }

    /** The `targetFound` handler of anchor `i`: it becomes the active
        target, only its anchor is shown, and the video button follows its
        layers by the corrected rule `VideoButtonDisplay`. */
    method TargetFound(i: nat, ghost s: Visibility.State)
      requires Valid() && Shows(s) && i < |anchors|
      modifies this`activeIndex, this`videoButton, anchors
      ensures Shows(Visibility.Step(s, Visibility.Found(i)))
      ensures videoButton == Some(VideoButtonDisplay(targetLayers[i]))
      ensures forall k :: 0 <= k < |anchors| ==> anchors[k].children == old(anchors[k].children)
      ensures Valid()
    {
      activeIndex := Some(i);
      ShowOnly(i);
      videoButton := Some(VideoButtonDisplay(targetLayers[i]));
    }

    /** The `targetLost` handler of anchor `i`: only when `i` is the active
        target does it clear the active target and hide the anchor. */
    method TargetLost(i: nat, ghost s: Visibility.State)
      requires Valid() && Shows(s) && i < |anchors|
      modifies this`activeIndex, anchors
      ensures Shows(Visibility.Step(s, Visibility.Lost(i)))
      ensures forall k :: 0 <= k < |anchors| ==> anchors[k].children == old(anchors[k].children)
      ensures Valid()
    {
      if activeIndex == Some(i) {
        activeIndex := None;
        anchors[i].SetVisible(false);
      }
    }

    /** The Start button: without a tracking system it returns at once;
        otherwise every anchor is hidden until a target is found. */
    method Start(trackerReady: bool, ghost s: Visibility.State)
      requires Valid() && Shows(s)
      modifies anchors
      ensures Shows(Visibility.Step(s, Visibility.Start(trackerReady)))
      ensures forall k :: 0 <= k < |anchors| ==> anchors[k].children == old(anchors[k].children)
      ensures Valid()
    {
      if !trackerReady {
        return;
      }
      HideAnchors();
    }

    /** The Stop button: without a tracking system it returns at once;
        otherwise every anchor is hidden and no target is active. */
    method Stop(trackerReady: bool, ghost s: Visibility.State)
      requires Valid() && Shows(s)
      modifies this`activeIndex, anchors
      ensures Shows(Visibility.Step(s, Visibility.Stop(trackerReady)))
      ensures forall k :: 0 <= k < |anchors| ==> anchors[k].children == old(anchors[k].children)
      ensures Valid()
    {
      if !trackerReady {
        return;
      }
      HideAnchors();
      activeIndex := None;
    }
  }
}
