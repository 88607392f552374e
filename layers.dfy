/** The configuration document (`cards.json`) as main.js reads it, the cap on
    layers per target, and the rule that decides whether the video button is
    shown. */
module Layers {
  import opened Wrappers

  /** At most this many layers of one target are built. */
  const MaxLayers: nat := 10

  /** A value the source hands to `Array.isArray`: an array, or anything else
      (a missing field included). */
  datatype Field<T> = NotArray | Array(items: seq<T>)

  /** One entry of a target's `layers` array. `Missing` is a null entry. For
      an object, `kind` is its `type` and `src` its `src`; a missing or falsy
      field is the empty string, and a truthy `type` that is not a string is
      a string naming no known type. */
  datatype LayerEntry = Missing | Layer(kind: string, src: string)

  /** One entry of `targets`. A falsy entry reads as `{}`, whose `layers` is
      missing: Target(NotArray). */
  datatype Target = Target(layers: Field<LayerEntry>)

  /** The parsed configuration document. */
  datatype Config = Config(targets: Field<Target>)

  function Min(a: nat, b: nat): nat {
    if a <= b then a else b
  }

  /** `clampLayers`: nothing for a non-array, otherwise the first
      `MaxLayers` entries in their original order. */
  function ClampLayers<T>(layers: Field<T>): (r: seq<T>)
    ensures layers.NotArray? ==> r == []
    ensures layers.Array? ==> |r| == Min(|layers.items|, MaxLayers) && r == layers.items[..|r|]
  {
    match layers
    case NotArray => []
    case Array(xs) => if |xs| <= MaxLayers then xs else xs[..MaxLayers]
  }

  /** `config.targets` when it is an array, otherwise no targets. */
  function TargetList(config: Config): (r: seq<Target>)
    ensures config.targets.NotArray? ==> r == []
    ensures config.targets.Array? ==> r == config.targets.items
  {
    match config.targets
    case NotArray => []
    case Array(ts) => ts
  }

  /** The layers built for a target: its `layers` field clamped, a falsy
      field counting as no layers. */
  function LayersOf(t: Target): (r: seq<LayerEntry>)
    ensures |r| <= MaxLayers
    ensures t.layers.NotArray? ==> r == []
    ensures t.layers.Array? ==> |r| <= |t.layers.items| && r == t.layers.items[..|r|]
  {
    ClampLayers(t.layers)
  }

  /** The layers of each target, in order. */
  function TargetLayers(ts: seq<Target>): (r: seq<seq<LayerEntry>>)
    ensures |r| == |ts| && forall k :: 0 <= k < |ts| ==> r[k] == LayersOf(ts[k])
  {
    seq(|ts|, k requires 0 <= k < |ts| => LayersOf(ts[k]))
  }

  /** The entry is a layer whose type is "video". */
  predicate IsVideo(l: LayerEntry) {
    l.Layer? && l.kind == "video"
  }

  /** The video button's `display` after `showVideoButtonIfNeeded(layers)`:
      shown exactly when some layer is a video. The scan is `layers.some`,
      reading `type` with optional chaining so that null entries count as
      non-video (see VideoButtonAsWritten for the code as written). */
  function VideoButtonDisplay(layers: seq<LayerEntry>): (display: string)
    ensures display == "inline-block" <==> exists k :: 0 <= k < |layers| && IsVideo(layers[k])
    ensures display == "none" <==> forall k :: 0 <= k < |layers| ==> !IsVideo(layers[k])
  {
    if layers == [] then "none"
    else if IsVideo(layers[0]) then "inline-block"
    else
      var rest := VideoButtonDisplay(layers[1..]);
      assert forall k :: 1 <= k < |layers| ==> layers[k] == layers[1..][k - 1];
      rest
  }

  predicate NoVideoBefore(layers: seq<LayerEntry>, k: nat)
    requires k <= |layers|
  {
    forall j :: 0 <= j < k ==> !IsVideo(layers[j])
  }

  /** The scan for a video layer as written: reading `type` of a
      null entry throws, so the scan fails (None) when it reaches a null
      entry before any video layer. */
  function VideoButtonAsWritten(layers: seq<LayerEntry>): (display: Option<string>)
    ensures display.None? <==>
      exists k :: 0 <= k < |layers| && layers[k].Missing? && NoVideoBefore(layers, k)
    ensures display.Some? ==> display.value == VideoButtonDisplay(layers)
  {
    if layers == [] then Some("none")
    else if layers[0].Missing? then None
    else if IsVideo(layers[0]) then Some("inline-block")
    else
      var rest := VideoButtonAsWritten(layers[1..]);
      assert forall k :: 1 <= k < |layers| ==> layers[k] == layers[1..][k - 1];
      assert rest.None? ==> exists k :: 1 <= k < |layers| && layers[k].Missing? && NoVideoBefore(layers, k);
      rest
  }

  /** A configuration the build loop accepts (it skips the null layer) makes
      the button check throw, while the intended check hides the button. */
  lemma NullLayerBreaksVideoButton(rest: seq<LayerEntry>)
    ensures VideoButtonAsWritten([Missing] + rest).None?
    ensures VideoButtonDisplay([Missing] + rest) == VideoButtonDisplay(rest)
  {
    assert ([Missing] + rest)[1..] == rest;
  }
}
