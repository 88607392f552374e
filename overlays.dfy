/** What the build makes of a target's layers: one entity per usable layer
    (`addImageLayer`, `addModelLayer`, `addVideoLayer`), and the hidden
    `<video>` assets `ensureVideoAsset` registers under ids derived from the
    video's URL. */
module Overlays {
  import opened Wrappers
  import opened Layers
  import Base64

  /** A spawned overlay: an `a-plane` textured from an image URL, an
      `a-gltf-model` loaded from a URL, or an `a-plane` textured from the
      `<video>` asset with the given element id. */
  datatype Entity = ImagePlane(url: string) | GltfModel(url: string) | VideoPlane(assetId: string)

  const VideoIdPrefix := "vid_"

  /** `layer?.type && layer?.src`: the build skips a layer without both. */
  predicate HasTypeAndSrc(l: LayerEntry): (b: bool)
    ensures l.Missing? ==> !b
    ensures b ==> l.kind != "" && l.src != ""
  {
    l.Layer? && l.kind != "" && l.src != ""
  }

  predicate IsKnownKind(kind: string) {
    kind == "image" || kind == "model" || kind == "video"
  }

  /** The layer becomes an entity when the build reaches it. */
  predicate Renders(l: LayerEntry) {
    HasTypeAndSrc(l) && IsKnownKind(l.kind)
  }

  /** A video layer whose `src` `btoa` rejects: building it throws. */
  predicate Fails(l: LayerEntry) {
    HasTypeAndSrc(l) && l.kind == "video" && !Base64.IsLatin1(l.src)
  }

  predicate NoFailure(ls: seq<LayerEntry>) {
    forall k :: 0 <= k < |ls| ==> !Fails(ls[k])
  }

  /** The element id of the video asset for `src`: "vid_" and the base 64
      of `src` without its `=` padding; `None` where `btoa` throws. */
  function VideoAssetId(src: string): (id: Option<string>)
    ensures id.Some? <==> Base64.IsLatin1(src)
    ensures id.Some? ==> id.value == VideoIdPrefix + Base64.EncodeUnpadded(Base64.Bytes(src))
  {
    match Base64.Btoa(src)
    case None => None
    case Some(b64) =>
      Base64.PaddingRemoved(Base64.Bytes(src));
      Some(VideoIdPrefix + Base64.RemoveAll(b64, '='))
  }

  function Chars(bs: seq<Base64.Byte>): (s: string)
    ensures |s| == |bs| && forall k :: 0 <= k < |bs| ==> s[k] as int == bs[k]
  {
    seq(|bs|, k requires 0 <= k < |bs| => bs[k] as char)
  }

  /** Reads the video URL back out of an asset id. */
  function SourceOfAssetId(id: string): Option<string> {
    var n := |VideoIdPrefix|;
    if |id| >= n && id[..n] == VideoIdPrefix && Base64.IsUnpadded(id[n..])
    then Some(Chars(Base64.Decode(id[n..])))
    else None
  }

  /** The asset id determines the URL: SourceOfAssetId undoes VideoAssetId. */
  lemma AssetIdRoundTrip(src: string)
    requires Base64.IsLatin1(src)
    ensures SourceOfAssetId(VideoAssetId(src).value) == Some(src)
  {
    var bs := Base64.Bytes(src);
    var id := VideoAssetId(src).value;
    var n := |VideoIdPrefix|;
    assert id[..n] == VideoIdPrefix && id[n..] == Base64.EncodeUnpadded(bs);
    Base64.DecodeEncode(bs);
    assert Chars(bs) == src;
  }

  /** Two different URLs never share an asset id, so reusing the element
      found under an id never plays another layer's video. */
  lemma VideoAssetIdInjective(a: string, b: string)
    requires VideoAssetId(a).Some? && VideoAssetId(a) == VideoAssetId(b)
    ensures a == b
  {
    AssetIdRoundTrip(a);
    AssetIdRoundTrip(b);
  }

  /** The entity the build spawns for a layer; `None` for a skipped layer,
      an unknown `type`, or a video layer that throws (the build never gets
      past that one). */
  function Render(l: LayerEntry): (e: Option<Entity>)
    ensures e.Some? <==> Renders(l) && !Fails(l)
  {
    if !HasTypeAndSrc(l) then None
    else if l.kind == "image" then Some(ImagePlane(l.src))
    else if l.kind == "model" then Some(GltfModel(l.src))
    else if l.kind == "video" then
      match VideoAssetId(l.src)
      case None => None
      case Some(id) => Some(VideoPlane(id))
    else None
  }

  /** The layer type an entity stands for, and the URL it shows. */
  function KindOf(e: Entity): string {
    match e
    case ImagePlane(_) => "image"
    case GltfModel(_) => "model"
    case VideoPlane(_) => "video"
  }

  function SourceOf(e: Entity): Option<string> {
    match e
    case ImagePlane(url) => Some(url)
    case GltfModel(url) => Some(url)
    case VideoPlane(id) => SourceOfAssetId(id)
  }

  /** Each spawned entity is of its layer's type and shows its layer's URL. */
  lemma RenderFaithful(l: LayerEntry)
    requires !Fails(l) && Renders(l)
    ensures KindOf(Render(l).value) == l.kind
    ensures SourceOf(Render(l).value) == Some(l.src)
  {
    if l.kind == "video" {
      AssetIdRoundTrip(l.src);
    }
  }

  /** The entities built for `ls`, in order. */
  function Entities(ls: seq<LayerEntry>): (es: seq<Entity>)
    ensures |es| <= |ls|
    decreases |ls|
  {
    if ls == [] then []
    else
      var init := ls[..|ls| - 1];
      var last := ls[|ls| - 1];
      Entities(init) + (if Render(last).Some? then [Render(last).value] else [])
  }

  /** `(type, src)` of each layer that renders, in order: what the build
      should show. */
  function Shown(ls: seq<LayerEntry>): seq<(string, Option<string>)>
    decreases |ls|
  {
    if ls == [] then []
    else (if Renders(ls[0]) then [(ls[0].kind, Some(ls[0].src))] else []) + Shown(ls[1..])
  }

  /** `(type, URL)` of each entity. */
  function Describe(es: seq<Entity>): seq<(string, Option<string>)>
    decreases |es|
  {
    if es == [] then [] else [(KindOf(es[0]), SourceOf(es[0]))] + Describe(es[1..])
  }

  lemma {:induction false} DescribeAppend(a: seq<Entity>, b: seq<Entity>)
    ensures Describe(a + b) == Describe(a) + Describe(b)
    decreases |a|
  {
    if a != [] {
      assert (a + b)[0] == a[0] && (a + b)[1..] == a[1..] + b;
      DescribeAppend(a[1..], b);
    } else {
      assert a + b == b;
    }
  }

  lemma {:induction false} ShownAppend(a: seq<LayerEntry>, b: seq<LayerEntry>)
    ensures Shown(a + b) == Shown(a) + Shown(b)
    decreases |a|
  {
    if a != [] {
      assert (a + b)[0] == a[0] && (a + b)[1..] == a[1..] + b;
      ShownAppend(a[1..], b);
    } else {
      assert a + b == b;
    }
  }

  /** The entities show exactly the usable layers, in order, each with its
      own type and URL. */
  lemma {:induction false} EntitiesShowLayers(ls: seq<LayerEntry>)
    requires NoFailure(ls)
    ensures Describe(Entities(ls)) == Shown(ls)
    decreases |ls|
  {
    if ls != [] {
      var init := ls[..|ls| - 1];
      var last := ls[|ls| - 1];
      var tail := if Render(last).Some? then [Render(last).value] else [];
      assert ls == init + [last];
      assert NoFailure(init) && !Fails(last);
      EntitiesShowLayers(init);
      DescribeAppend(Entities(init), tail);
      ShownLast(init, last);
      if Render(last).Some? {
        RenderFaithful(last);
      }
    }
  }

  lemma ShownLast(init: seq<LayerEntry>, last: LayerEntry)
    ensures Shown(init + [last]) ==
      Shown(init) + (if Renders(last) then [(last.kind, Some(last.src))] else [])
  {
    ShownAppend(init, [last]);
    assert [last][1..] == [];
  }

  /** A target's anchor carries at most MaxLayers entities. */
  lemma TargetEntitiesBounded(t: Target)
    ensures |Entities(LayersOf(t))| <= MaxLayers
  {
  }

  lemma {:induction false} EntitiesAppend(a: seq<LayerEntry>, b: seq<LayerEntry>)
    ensures Entities(a + b) == Entities(a) + Entities(b)
    decreases |b|
  {
    if b == [] {
      assert a + b == a;
    } else {
      var init := b[..|b| - 1];
      var last := b[|b| - 1];
      assert (a + b)[..|a + b| - 1] == a + init;
      EntitiesAppend(a, init);
    }
  }

  /** The asset registry: element id to video URL, for every `<video>` in
      `#assets`. */
  type Assets = map<string, string>

  /** `ensureVideoAsset`: an existing element under the id is reused as it
      is; otherwise a new one is added for `src`. Where `btoa` throws
      nothing is added. */
  function Register(assets: Assets, src: string): (r: Assets)
    ensures forall x :: x in assets ==> x in r && r[x] == assets[x]
    ensures VideoAssetId(src).None? ==> r == assets
    ensures VideoAssetId(src).Some? ==> r.Keys == assets.Keys + {VideoAssetId(src).value}
  {
    match VideoAssetId(src)
    case None => assets
    case Some(id) => if id in assets then assets else assets[id := src]
  }

  /** Every asset sits under the id its own URL yields. */
  predicate Keyed(assets: Assets) {
    forall id :: id in assets ==> VideoAssetId(assets[id]) == Some(id)
  }

  /** Every video plane textures from an asset that exists. */
  predicate Backed(es: seq<Entity>, assets: Assets) {
    forall k :: 0 <= k < |es| && es[k].VideoPlane? ==> es[k].assetId in assets
  }

  /** Registering keeps every asset under its own id, adds nothing but the
      one id, changes no existing asset, and afterwards the id holds `src`
      itself, whether the element was new or reused. */
  lemma RegisterFinds(assets: Assets, src: string)
    requires Keyed(assets) && Base64.IsLatin1(src)
    ensures var r := Register(assets, src); var id := VideoAssetId(src).value;
      Keyed(r) && id in r && r[id] == src
      && r.Keys == assets.Keys + {id}
      && forall x :: x in assets ==> r[x] == assets[x]
  {
    var id := VideoAssetId(src).value;
    if id in assets {
      VideoAssetIdInjective(src, assets[id]);
    }
  }

  /** A second `ensureVideoAsset` for the same URL adds nothing. */
  lemma RegisterIdempotent(assets: Assets, src: string)
    ensures Register(Register(assets, src), src) == Register(assets, src)
  {
  }

  /** The registry after the video layers of `ls` are built, in order. */
  function Registered(assets: Assets, ls: seq<LayerEntry>): (r: Assets)
    ensures forall x :: x in assets ==> x in r && r[x] == assets[x]
    decreases |ls|
  {
    if ls == [] then assets
    else
      var before := Registered(assets, ls[..|ls| - 1]);
      var last := ls[|ls| - 1];
      if Renders(last) && last.kind == "video" then Register(before, last.src) else before
  }

  lemma BackedGrows(es: seq<Entity>, m: Assets, m': Assets)
    requires Backed(es, m) && m.Keys <= m'.Keys
    ensures Backed(es, m')
  {
  }

  /** Building `ls` keeps the registry keyed, never changes an existing
      asset, and leaves every video plane it spawns backed by the asset of
      its own layer's URL. */
  lemma {:induction false} BuildKeepsRegistry(assets: Assets, ls: seq<LayerEntry>)
    requires Keyed(assets)
    ensures var r := Registered(assets, ls);
      Keyed(r) && Backed(Entities(ls), r)
      && assets.Keys <= r.Keys && (forall x :: x in assets ==> r[x] == assets[x])
    decreases |ls|
  {
    if ls != [] {
      var init := ls[..|ls| - 1];
      var last := ls[|ls| - 1];
      BuildKeepsRegistry(assets, init);
      var before := Registered(assets, init);
      if Renders(last) && last.kind == "video" && Base64.IsLatin1(last.src) {
        RegisterFinds(before, last.src);
        BackedGrows(Entities(init), before, Register(before, last.src));
      }
    }
  }

  lemma {:induction false} RegisteredAppend(m: Assets, a: seq<LayerEntry>, b: seq<LayerEntry>)
    ensures Registered(m, a + b) == Registered(Registered(m, a), b)
    decreases |b|
  {
    if b == [] {
      assert a + b == a;
    } else {
      var init := b[..|b| - 1];
      assert (a + b)[..|a + b| - 1] == a + init;
      RegisteredAppend(m, a, init);
    }
  }

  /** A build that runs to the end leaves the registry keyed and every
      spawned video plane, earlier ones included, backed by its asset. */
  lemma RegistryAfterBuild(m: Assets, spawned: seq<Entity>, ls: seq<LayerEntry>)
    requires Keyed(m) && Backed(spawned, m)
    ensures Keyed(Registered(m, ls)) && Backed(spawned + Entities(ls), Registered(m, ls))
  {
    BuildKeepsRegistry(m, ls);
    BackedGrows(spawned, m, Registered(m, ls));
    BackedConcat(spawned, Entities(ls), Registered(m, ls));
  }

  /** The index of the first layer whose build throws, or `|ls|`. */
  function FirstFailure(ls: seq<LayerEntry>): (k: nat)
    ensures k <= |ls|
    ensures k < |ls| ==> Fails(ls[k])
    decreases |ls|
  {
    if ls == [] then 0
    else if Fails(ls[0]) then 0
    else 1 + FirstFailure(ls[1..])
  }

  lemma {:induction false} FirstFailureAppend(a: seq<LayerEntry>, b: seq<LayerEntry>)
    ensures FirstFailure(a + b) ==
      if FirstFailure(a) < |a| then FirstFailure(a) else |a| + FirstFailure(b)
    decreases |a|
  {
    if a == [] {
      assert a + b == b;
    } else {
      assert (a + b)[0] == a[0] && (a + b)[1..] == a[1..] + b;
      FirstFailureAppend(a[1..], b);
    }
  }

  /** A layer before the first failing one does not fail. */
  lemma {:induction false} BeforeFirstFailure(ls: seq<LayerEntry>, k: nat)
    requires k < FirstFailure(ls)
    ensures !Fails(ls[k])
    decreases k
  {
    if k > 0 {
      BeforeFirstFailure(ls[1..], k - 1);
    }
  }

  /** One turn of the loop over a target's layers: layer `k` adds its
      entity, if it renders, and registers its video; a failing layer
      reached by the loop is the first one. */
  lemma LayerStep(ls: seq<LayerEntry>, k: nat, m: Assets)
    requires k < |ls|
    ensures k <= FirstFailure(ls) && Fails(ls[k]) ==> FirstFailure(ls) == k
    ensures var l := ls[k];
      Entities(ls[..k + 1]) == Entities(ls[..k]) + (if Render(l).Some? then [Render(l).value] else [])
    ensures var l := ls[k];
      Registered(m, ls[..k + 1]) ==
        if Renders(l) && l.kind == "video" then Register(Registered(m, ls[..k]), l.src)
        else Registered(m, ls[..k])
  {
    if k < FirstFailure(ls) {
      BeforeFirstFailure(ls, k);
    }
    assert ls[..k + 1][..k] == ls[..k];
  }

  /** The first failing index is `|ls|` exactly when no layer fails. */
  lemma NoFailureIff(ls: seq<LayerEntry>)
    ensures FirstFailure(ls) == |ls| <==> NoFailure(ls)
  {
    if FirstFailure(ls) == |ls| {
      forall k | 0 <= k < |ls| ensures !Fails(ls[k]) {
        BeforeFirstFailure(ls, k);
      }
    } else {
      var f := FirstFailure(ls);
      assert Fails(ls[f]);
    }
  }

  /** Every video plane in either part is backed, so in the whole. */
  lemma BackedConcat(a: seq<Entity>, b: seq<Entity>, m: Assets)
    requires Backed(a, m) && Backed(b, m)
    ensures Backed(a + b, m)
  {
    assert forall k :: |a| <= k < |a + b| ==> (a + b)[k] == b[k - |a|];
  }

  /** Every target's layers, after clamping, one target after another. */
  function AllLayers(ts: seq<Target>): seq<LayerEntry>
    decreases |ts|
  {
    if ts == [] then [] else AllLayers(ts[..|ts| - 1]) + LayersOf(ts[|ts| - 1])
  }

  lemma {:induction false} AllLayersAppend(a: seq<Target>, b: seq<Target>)
    ensures AllLayers(a + b) == AllLayers(a) + AllLayers(b)
    decreases |b|
  {
    if b == [] {
      assert a + b == a;
    } else {
      var init := b[..|b| - 1];
      var last := b[|b| - 1];
      assert (a + b)[..|a + b| - 1] == a + init;
      assert (a + b)[|a + b| - 1] == last;
      assert AllLayers(a + b) == AllLayers(a + init) + LayersOf(last);
      assert AllLayers(b) == AllLayers(init) + LayersOf(last);
      AllLayersAppend(a, init);
    }
  }

  lemma AllLayersStep(ts: seq<Target>, i: nat)
    requires i < |ts|
    ensures AllLayers(ts[..i + 1]) == AllLayers(ts[..i]) + LayersOf(ts[i])
  {
    assert ts[..i + 1][..i] == ts[..i];
  }

  /** When the first failing layer is in target `i`, the build as a whole
      stops there: everything before target `i`, and target `i`'s layers up
      to the failing one, are built. */
  lemma FailureInTarget(ts: seq<Target>, i: nat)
    requires i < |ts| && FirstFailure(AllLayers(ts[..i])) == |AllLayers(ts[..i])|
    requires FirstFailure(LayersOf(ts[i])) < |LayersOf(ts[i])|
    ensures var all := AllLayers(ts); var pre := AllLayers(ts[..i]);
      var ls := LayersOf(ts[i]); var f := FirstFailure(all);
      f == |pre| + FirstFailure(ls) && f < |all| && all[..f] == pre + ls[..FirstFailure(ls)]
  {
    var pre := AllLayers(ts[..i]);
    var ls := LayersOf(ts[i]);
    var post := AllLayers(ts[i + 1..]);
    AllLayersAround(ts, i);
    FirstFailureAppend(pre, ls);
    var g := FirstFailure(ls);
    FirstFailureAppend(pre + ls, post);
    assert (pre + ls + post)[..|pre| + g] == pre + ls[..g];
  }

  lemma AllLayersAround(ts: seq<Target>, i: nat)
    requires i < |ts|
    ensures AllLayers(ts) == AllLayers(ts[..i]) + LayersOf(ts[i]) + AllLayers(ts[i + 1..])
  {
    var front, back := ts[..i + 1], ts[i + 1..];
    assert ts == front + back;
    AllLayersAppend(front, back);
    AllLayersStep(ts, i);
  }

  /** The state after the first `i` targets were built with no failure:
      every one of their layers built, the entities made and the assets
      registered in order. */
  predicate BuiltThrough(ts: seq<Target>, i: nat, sp0: seq<Entity>, sp: seq<Entity>, m0: Assets, m: Assets)
    requires i <= |ts|
  {
    var done := AllLayers(ts[..i]);
    FirstFailure(done) == |done| && sp == sp0 + Entities(done) && m == Registered(m0, done)
  }

  /** The state after the build stopped at the first failing layer of all
      targets: what came before it was built. */
  predicate StoppedAtFailure(ts: seq<Target>, sp0: seq<Entity>, sp: seq<Entity>, m0: Assets, m: Assets) {
    var all := AllLayers(ts);
    var g := FirstFailure(all);
    g < |all| && sp == sp0 + Entities(all[..g]) && m == Registered(m0, all[..g])
  }

  /** Once every target is built with no failure, the build as a whole ran
      to the end. */
  lemma BuiltAll(ts: seq<Target>, sp0: seq<Entity>, sp: seq<Entity>, m0: Assets, m: Assets)
    requires BuiltThrough(ts, |ts|, sp0, sp, m0, m)
    ensures var all := AllLayers(ts);
      FirstFailure(all) == |all| && sp == sp0 + Entities(all[..|all|]) && m == Registered(m0, all[..|all|])
  {
    assert ts[..|ts|] == ts;
    assert AllLayers(ts)[..|AllLayers(ts)|] == AllLayers(ts);
  }

  /** Building `a` and then `b` is building `a + b`. */
  lemma BuildAppend(a: seq<LayerEntry>, b: seq<LayerEntry>, sp0: seq<Entity>, sp1: seq<Entity>, sp2: seq<Entity>,
                    m0: Assets, m1: Assets, m2: Assets)
    requires sp1 == sp0 + Entities(a) && sp2 == sp1 + Entities(b)
    requires m1 == Registered(m0, a) && m2 == Registered(m1, b)
    ensures sp2 == sp0 + Entities(a + b) && m2 == Registered(m0, a + b)
  {
    EntitiesAppend(a, b);
    RegisteredAppend(m0, a, b);
    assert (sp0 + Entities(a)) + Entities(b) == sp0 + (Entities(a) + Entities(b));
  }

  /** One target of the build loop, on values: before target `i` the
      spawned list and the registry are those of the earlier targets; target
      `i`'s layers up to its first failing one are added. Either the whole
      target was built and the loop goes on, or the build as a whole stops
      at its first failing layer. */
  lemma BuildStep(ts: seq<Target>, i: nat, sp0: seq<Entity>, spPrev: seq<Entity>, spNew: seq<Entity>,
                  m0: Assets, mPrev: Assets, mNew: Assets)
    requires i < |ts|
    requires BuiltThrough(ts, i, sp0, spPrev, m0, mPrev)
    requires var ls := LayersOf(ts[i]); var f := FirstFailure(ls);
      spNew == spPrev + Entities(ls[..f]) && mNew == Registered(mPrev, ls[..f])
    ensures var ls := LayersOf(ts[i]);
      FirstFailure(ls) == |ls| ==> BuiltThrough(ts, i + 1, sp0, spNew, m0, mNew)
    ensures var ls := LayersOf(ts[i]);
      FirstFailure(ls) < |ls| ==> StoppedAtFailure(ts, sp0, spNew, m0, mNew)
  {
    var pre := AllLayers(ts[..i]);
    var ls := LayersOf(ts[i]);
    var f := FirstFailure(ls);
    BuildAppend(pre, ls[..f], sp0, spPrev, spNew, m0, mPrev, mNew);
    if f == |ls| {
      assert ls[..f] == ls;
      AllLayersStep(ts, i);
      FirstFailureAppend(pre, ls);
    } else {
      FailureInTarget(ts, i);
    }
  }
}
