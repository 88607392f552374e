# ar-friend-cards: a Dafny model of the overlay build and the anchor state

ar-friend-cards is a browser page that tracks printed business cards with an
image-tracking engine and shows overlays on them. `main.js` reads a
configuration document (`cards.json`) listing targets. Each target has up to
ten layers: an image, a glTF model or a video. For every target, main creates
an anchor entity and builds one entity per usable layer onto it. Each video
gets a hidden `<video>` asset whose element id is `vid_` followed by the
base-64 of its URL. Main then wires the tracking events and the Start and Stop
buttons to a small visibility state: the active target plus one visible flag
per anchor. `make_qrs.py` saves one QR code image per card. Each code encodes the
page URL with that card's zero-padded id.

The model is split into these modules:

- `Layers` (layers.dfy): the configuration document as values (`Field`,
  `LayerEntry`, `Target`, `Config`). It also holds `clampLayers` and the
  video-button rule.
- `CardIds` (card_ids.dfy): JavaScript's `trim` over its whitespace set, and
  `getCardIdFromUrl`.
- `Base64` (base64.dfy): `btoa` as section 4 of RFC 4648 defines it, and the
  `=`-stripped encoding. An unpadded decoder serves as that encoding's partner.
- `Overlays` (overlays.dfy): what the build makes of layers, specified as
  functions on values. This covers the entity for each layer, the asset
  registry kept by `ensureVideoAsset`, and the first layer whose build throws.
  It also holds the lemmas relating them.
- `Visibility` (visibility.dfy): the anchor-visibility state machine
  (`activeIndex` plus the visible flags) and the four events that change it.
  Its invariant is that the visible anchors are a subset of `{activeIndex}`.
- `Scene` (scene.dfy): the imperative part of main as classes. `Anchor` holds
  its children and visible flag; `ArScene` holds the anchors, the spawned
  entities, the assets, the active index and the video button. The build loop,
  the layer builders, `ensureVideoAsset` and the four handlers are methods,
  each proved against the functions of `Overlays` and `Visibility`.
- `QrCodes` (qr_codes.dfy): the loop of `make_qrs.py`, as a method that
  returns the id, URL and file name it formats for each card.

The model follows the code of `main.js` and `make_qrs.py`.

Within the model, three situations throw in main:

- a configuration without targets;
- a video URL with a character that `btoa` rejects;
- a null entry before every video layer in the first target's `layers`. The
  video-button scan at main.js:548 reads `type` of that entry (see
  "## Findings").

`Setup` reports the first two as `SetupError` values. Everything built before
the throw stays built. For the third, `Setup` and `TargetFound` apply the
corrected video-button rule instead of throwing (see "## Left out").

main.js defines `getCardIdFromUrl` and `DEFAULT_CARD_ID` but never calls the
function: the page does not choose a card from its URL. `CardIds` models that
function as written. The lemmas that relate it to the URLs `make_qrs.py`
writes are facts about the function, not about what the page shows.

## Model

| member | source | states |
|---|---|---|
| Layers.ClampLayers | main.js:179-182 | A non-array gives no layers; an array gives its first min(length, 10) entries in their original order |
| Layers.VideoButtonDisplay | main.js:453-457 | The button is "inline-block" exactly when some layer has type "video", and "none" exactly when none has (null entries count as non-video) |
| Layers.VideoButtonAsWritten | main.js:454 | The scan as written fails exactly when a null entry comes before every video layer; when it does not fail it agrees with VideoButtonDisplay |
| Layers.NullLayerBreaksVideoButton | main.js:454 | A leading null entry (which the build loop skips) makes the as-written scan fail, while the intended display is that of the remaining layers |
| Layers.TargetList | main.js:463 | `config.targets` when it is an array, otherwise no targets: a missing or non-array `targets` counts as none |
| Layers.LayersOf | main.js:497-498 | A target's layers are at most 10: none when its `layers` is not an array, otherwise a prefix of that array |
| CardIds.Trim | main.js:12 | The trimmed id is empty exactly when the input is all whitespace; otherwise it starts and ends with a non-whitespace character |
| CardIds.TrimMiddle | main.js:12 | `trim` keeps a slice of the input whose cut-off margins are whitespace only |
| CardIds.TrimIdempotent | main.js:12 | Trimming twice gives the same as trimming once |
| CardIds.TrimClean | main.js:12 | A string that neither starts nor ends with whitespace is its own trim |
| CardIds.CardIdFromUrl | main.js:9-13 | The id is the trimmed `id` parameter when that is not blank; otherwise it is "card_001". It is never empty and has no surrounding whitespace |
| QrCodes.FormatCardId | make_qrs.py:9 | `f"card_{i:03d}"`: "card_" followed by the zero-padded number, at least 8 characters |
| QrCodes.UrlCarriesId | make_qrs.py:10 | The URL is BASE_URL, then "?id=", then exactly the card id, so the id is everything after "?id=" |
| QrCodes.FileCarriesId | make_qrs.py:22 | The image path is "qrs/qr_", then exactly the card id, then ".png" |
| QrCodes.OwnUrlAndFile | make_qrs.py:8-22 | Two different card ids never share a URL or an image file |
| QrCodes.CardIdDigits | make_qrs.py:9 | Below 1000, the id is "card_" followed by the hundreds, tens and units digits |
| QrCodes.CardIdsOrdered | make_qrs.py:9 | For i < j < 1000, id i sorts strictly before id j as text, so the two differ |
| QrCodes.FirstAndLastIds | make_qrs.py:8-9 | The ids formatted for `range(1, 61)` run from "card_001" to "card_060" |
| QrCodes.MakeQrs | make_qrs.py:4-22 | 60 jobs, card_001 to card_060. Each job's id is the zero-padded index, its URL is BASE_URL + "?id=" + id and its file is qrs/qr_<id>.png. Every id is 8 characters, the ids strictly increase, and no two cards share a URL or an image file |
| QrCodes.IdParameterReadsBack | make_qrs.py:10 | `getCardIdFromUrl`, given the `id` parameter the script writes for card i (i < 1000), returns exactly card i's id |
| QrCodes.DefaultIsFirstCard | main.js:1 | `getCardIdFromUrl`'s default id, "card_001", is the id of the first card the script saves a QR code for |
| Base64.Btoa | main.js:304 | `btoa` succeeds exactly when every character is below 256, and then gives 4 letters per started group of 3 characters |
| Base64.Encode | main.js:304 | Padded base 64 has 4 letters per started group of 3 bytes |
| Base64.RemoveAll | main.js:304 | `replace(/=/g, "")` leaves no `=` and never lengthens; a string without `=` is unchanged |
| Base64.PaddingRemoved | main.js:304 | Stripping `=` from `btoa`'s output gives exactly the unpadded encoding |
| Base64.DecodeEncode | main.js:304 | The unpadded encoding is well formed, and decoding it returns the original bytes |
| Overlays.VideoAssetId | main.js:304 | An id exists exactly when every character of the URL is below 256; it is "vid_" + the unpadded base 64 of the URL's bytes |
| Overlays.AssetIdRoundTrip | main.js:304 | The URL can be read back from its asset id |
| Overlays.VideoAssetIdInjective | main.js:304-306 | Two different URLs never get the same asset id |
| Overlays.HasTypeAndSrc | main.js:509 | The skip test: a null entry is skipped, not read (optional chaining); a layer that passes has a non-empty type and src |
| Overlays.Render | main.js:508-512 | A layer yields an entity exactly when it has a type and a src, the type is image, model or video, and the build does not throw on it |
| Overlays.RenderFaithful | main.js:269-334 | Each entity has its layer's type and shows its layer's URL |
| Overlays.Entities | main.js:508-513 | A list of layers never yields more entities than it has layers |
| Overlays.EntitiesShowLayers | main.js:508-513 | When no layer throws, the entities are exactly the usable layers, in order, each with its own type and URL |
| Overlays.TargetEntitiesBounded | main.js:498 | An anchor never carries more than 10 entities |
| Overlays.Register | main.js:301-319 | `ensureVideoAsset` on the registry: existing assets stay as they were; when `btoa` throws nothing changes, otherwise the keys grow by exactly the URL's asset id |
| Overlays.Registered | main.js:508-513 | Registering the videos of a list of layers, in order, keeps every asset that was already there |
| Overlays.RegisterFinds | main.js:301-319 | `ensureVideoAsset` keeps every asset under its own id and adds only the new id. It changes no existing asset, and afterwards the id holds this very URL, whether the element was new or reused |
| Overlays.RegisterIdempotent | main.js:306 | A second `ensureVideoAsset` call for the same URL adds nothing |
| Overlays.BuildKeepsRegistry | main.js:321-334 | Building layers keeps the registry keyed and never changes an existing asset; every video plane built has its asset |
| Overlays.RegistryAfterBuild | main.js:496-513 | After a full build, every spawned video plane, earlier ones included, has its asset |
| Overlays.FirstFailure | main.js:304 | Its result is at most the number of layers; a result below it is a video layer whose URL `btoa` rejects |
| Overlays.FirstFailureAppend | main.js:496-513 | The first failing layer of a concatenation is that of the first part, or else that of the second part offset by the first part's length |
| Overlays.BeforeFirstFailure | main.js:508-513 | No layer before the first failing one throws |
| Overlays.NoFailureIff | main.js:508-513 | The first failure is at the end exactly when no layer throws |
| Overlays.LayerStep | main.js:508-512 | One layer adds its entity, if it yields one, and registers its video; a failing layer reached by the loop is the first failing one |
| Overlays.FailureInTarget | main.js:496-513 | When target i holds the first failing layer, the whole build stops there: the earlier targets and target i's layers before it are built |
| Overlays.BuiltAll | main.js:496-545 | When every target was built without a failing layer, no layer of the whole configuration fails, and the spawned list and registry are those of building all its layers |
| Overlays.BuildAppend | main.js:496-513 | Building one list of layers and then another is building their concatenation |
| Overlays.BuildStep | main.js:496-513 | After one more target, either all of its layers were built and the build goes on, or the whole build stops at its first failing layer |
| Visibility.Step | main.js:518-592 | One event (targetFound, targetLost, Start, Stop) changes the visibility state without changing the number of anchors; FoundShowsOnly, LostEffect and StartStopEffect give each event's effect |
| Visibility.InitialInv | main.js:516 | After the build no anchor is visible and no target is active, which satisfies the invariant |
| Visibility.StepKeepsInv | main.js:518-544 | Every event keeps "only the active target's anchor is visible" and the number of anchors |
| Visibility.RunKeepsInv | main.js:518-592 | Any sequence of events keeps the invariant |
| Visibility.VisibleWithinActive | main.js:492-592 | From the state after the build, after any events, the visible anchors are a subset of {activeIndex} |
| Visibility.AtMostOneVisible | main.js:522-524 | Under the invariant at most one anchor is visible |
| Visibility.FoundShowsOnly | main.js:518-524 | `targetFound(i)` makes i active and leaves exactly anchor i visible |
| Visibility.LostEffect | main.js:536-544 | `targetLost(i)` changes nothing unless i is active; otherwise it clears the active target and no anchor is visible |
| Visibility.StartStopEffect | main.js:554-592 | Stop hides every anchor and clears the active target; Start hides every anchor and keeps it. Without a tracking system neither does anything |
| Scene.Anchor.constructor | main.js:500-502 | A new anchor has its target index, no children, and is visible |
| Scene.Anchor.Clear | main.js:336-339 | `clearAnchor` leaves no children |
| Scene.Anchor.SetVisible | main.js:341-344 | The anchor's visible flag becomes the given value and nothing else changes |
| Scene.ArScene.constructor | main.js:3 | Before main runs there are no anchors, assets or spawned entities, and the invariants hold |
| Scene.ArScene.AddImageLayer | main.js:269-286 | Exactly one image plane is appended to the anchor and to the spawned list; nothing else changes |
| Scene.ArScene.AddModelLayer | main.js:288-299 | Exactly one model is appended to the anchor and to the spawned list; nothing else changes |
| Scene.ArScene.EnsureVideoAsset | main.js:301-319 | Returns VideoAssetId(src); the registry becomes Register(old registry, src), and is unchanged when `btoa` throws |
| Scene.ArScene.AddVideoLayer | main.js:321-334 | Succeeds exactly when the URL is Latin-1. On success one video plane for the URL's asset is appended to the anchor and to the spawned list, and the asset is registered; on failure nothing changes |
| Scene.ArScene.BuildLayers | main.js:507-513 | Clears the anchor, then builds the layers up to the first failing one. The anchor's children are their entities, the spawned list grows by exactly those entities, and the registry is Registered(old, those layers); success exactly when no layer fails |
| Scene.ArScene.ShowOnly | main.js:522-524 | Anchor k is visible exactly when k = i; no anchor's children change |
| Scene.ArScene.HideAnchors | main.js:567 | Every anchor is hidden; no anchor's children change |
| Scene.ArScene.BuildAnchor | main.js:500-516 | A new anchor for target i carrying the entities of its layers before the first failure. Spawned list and registry are updated to match, and the anchor is hidden when the build succeeded |
| Scene.ArScene.BuildTarget | main.js:496-545 | One turn of the loop appends a new anchor. On success the first i+1 targets are built; otherwise the build as a whole stopped at its first failing layer |
| Scene.ArScene.RecordAnchor | main.js:498-504 | The anchor list grows by exactly the new anchor. When its layers were built, the first i+1 targets are built: each has a hidden anchor in order, carrying its layers' entities, with those layers kept for its handlers |
| Scene.ArScene.BuildTargets | main.js:496-545 | Succeeds exactly when no layer of any target fails. The spawned list and registry grow by the entities and videos of every layer before the first failing one. On success there is one hidden anchor per target, in order, carrying its layers' entities |
| Scene.ArScene.Setup | main.js:459-548 | A configuration whose `targets` is missing, not an array, or empty is an error (NoTargets) and changes nothing; an unencodable video URL is an error after the partial build. On success: the visibility state machine's initial state, one anchor per target with that target's entities, the registry invariants, and the video button for target 0 |
| Scene.ArScene.TargetFound | main.js:518-534 | The scene moves to Visibility.Step(s, Found(i)), the video button follows target i's layers, and the invariants hold |
| Scene.ArScene.TargetLost | main.js:536-544 | The scene moves to Visibility.Step(s, Lost(i)) and the invariants hold |
| Scene.ArScene.Start | main.js:554-582 | The scene moves to Visibility.Step(s, Start(trackerReady)) and the invariants hold |
| Scene.ArScene.Stop | main.js:584-604 | The scene moves to Visibility.Step(s, Stop(trackerReady)) and the invariants hold |

## Left out

- `loadJSON`/`fetch`, `boot` and the DOMContentLoaded wiring are network and browser I/O. The configuration arrives already parsed, as a `Config` value. A document whose top level is not an object is not modelled.
- A layer field that is not a string is reduced to a string. A falsy `type` or `src` reads as `""`, and a truthy non-string `type` reads as a string naming no known type.
- `makeEntityCommon`'s position, scale and animation attributes are not modelled: they format floating-point values. Its throw for a `pos` or `scale` that is not iterable is not modelled either.
- The image URL's `?v=${Date.now()}` cache-buster is not modelled (it reads the clock). An image plane records the layer's own `src`.
- `layer-anim`, `always-on-top`, the iOS canvas-ordering workarounds and their timers are not modelled. Neither are `showScene`, `showSplash`, `setStatus` and `hideAllOverlaysAndReset`: they are browser-specific display code.
- The tracking engine's `start()`/`stop()` calls, their awaits and the Start handler's catch of their errors are not modelled. The Start handler's own throw before hiding is not modelled either. Start and Stop are modelled as the tracker-ready check followed by the visibility change.
- The video button's click handler (`video.play()`) and the attributes of the `<video>` element are not modelled.
- The tracking engine writing anchor visibility itself is not modelled. Visibility changes only through main's handlers.
- Scene.Anchor.SetVisible: does not model the early return of `setAnchorVisible` for an anchor whose `object3D` does not exist yet. The flag is always set.
- Scene.ArScene.Setup: on the error paths, only the spawned list and the registry are stated. The anchors already created and the handlers already attached are not.
- Scene.ArScene.Setup: does not state that the anchors are newly allocated objects. The model keeps them pairwise distinct through their target index. As a consequence, a verified caller cannot follow `Setup` with a handler call on the same scene (the handlers modify the anchors, which the caller's frame does not cover), so "main, then any events" is composed in `Visibility.VisibleWithinActive` on values rather than as one imperative sequence.
- Scene.ArScene.Setup: sets the video button by `VideoButtonDisplay`, the corrected rule of "## Findings". When the first target has a null entry before every video layer, main as written builds every target and then throws at main.js:548. The Start, Stop and video-button listeners are then never attached, and the model reports success instead.
- Scene.ArScene.TargetFound: sets the video button by `VideoButtonDisplay`. When the found target has a null entry before every video layer, the handler as written throws at main.js:527, after the visibility change, and the button keeps its old value.
- Scene.ArScene.EnsureVideoAsset: `$(vidId)` searches the whole document. The model searches only the asset registry, so another element whose id collides with a `vid_` id is not modelled.
- The handlers' status texts, including the target's `id` shown by `targetFound`, are not modelled.
- The QR encoding, the PNG image, `mkdir` and `save` in make_qrs.py are not modelled: they are library calls and file I/O. Only the strings the script formats are modelled.
- Parsing `window.location.href` and its search parameters is not modelled. `CardIds.CardIdFromUrl` takes the value of the `id` parameter, or `None` when it is absent.

## Findings

| source | as written | input that shows it | evidently intended | confidence | as-written member | corrected member |
|---|---|---|---|---|---|---|
| main.js:454 | `layers.some(l => l.type === "video")` reads `type` of every entry up to the first video layer, so a null entry throws a TypeError. This happens at main.js:548 (the rest of main after it does not run) and at main.js:527 (inside the targetFound handler) | a target whose `layers` is `[null, {"type": "video", "src": "v.mp4"}]`; the build loop at main.js:509 skips the null entry with `layer?.type` | treat null entries as non-video, as the build loop does with optional chaining | medium, not executed | Layers.VideoButtonAsWritten, Layers.NullLayerBreaksVideoButton | Layers.VideoButtonDisplay |
