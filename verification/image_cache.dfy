/**
 VtImageCache: overlapping image syncs and a dispose, interleaved at the await points of sync. A sync runs until
 the first layer it has to decode, suspends there, and goes on when the decoded image is delivered to it, unless
 a newer sync or a dispose has taken its place meanwhile. Images are owned: each has to be disposed exactly once.
 */
module ImageCache {
  import opened Bytes

  type Key = (int, int)

  /** An image is named by its number, in the order the decoder made them. */
  type Image = nat

  datatype Layer = Layer(imageId: int, placementId: int, generation: int, visible: bool, z: int)

  datatype Paint = Paint(image: Image, layer: Layer)

  datatype Cache = Cache(
    images: map<Key, Image>, gens: map<Key, int>, below: seq<Paint>, above: seq<Paint>, syncGen: nat)

  /** A suspended sync: it waits for layer `at`, and has the decoder's answer once that is there. */
  datatype Task = Task(token: nat, layers: seq<Layer>, at: nat, answer: Option<Option<Image>>)

  datatype Place = InFlight(task: nat) | Cached(key: Key) | Disposed

  /**
   The last four are bookkeeping of the model: where each image made so far is, and the layer it was made for; and of
   the newest sync its layers, none after a dispose, and which of them the decoder made no image for.
   */
  datatype World = World(
    cache: Cache, tasks: map<nat, Task>, nextTask: nat, disposed: multiset<Image>,
    places: seq<Place>, made: seq<Layer>, latest: seq<Layer>, missing: set<nat>)

  const EMPTY := World(Cache(map[], map[], [], [], 0), map[], 0, multiset{}, [], [], [], {})

  function KeyOf(layer: Layer): Key {
    (layer.imageId, layer.placementId)
  }

  predicate UpToDate(c: Cache, layer: Layer) {
    KeyOf(layer) in c.gens && c.gens[KeyOf(layer)] == layer.generation && KeyOf(layer) in c.images
  }

  /** The next layer that has to be decoded, from `i` on. */
  function NextMiss(c: Cache, layers: seq<Layer>, i: nat): (at: nat)
    requires i <= |layers|
    ensures i <= at <= |layers|
    ensures at < |layers| ==> !UpToDate(c, layers[at])
    ensures forall k :: i <= k < at ==> UpToDate(c, layers[k])
    decreases |layers| - i
  {
    if i == |layers| || !UpToDate(c, layers[i]) then i else NextMiss(c, layers, i + 1)
  }

  function Needed(layers: seq<Layer>): set<Key> {
    set k | 0 <= k < |layers| :: KeyOf(layers[k])
  }

  function Keep<T>(m: map<Key, T>, needed: set<Key>): map<Key, T> {
    map k | k in m && k in needed :: m[k]
  }

  function Unneeded(images: map<Key, Image>, needed: set<Key>): set<Image> {
    set k | k in images && k !in needed :: images[k]
  }

  /** The visible, cached layers on one side of the text, in order. */
  function PaintSide(images: map<Key, Image>, layers: seq<Layer>, below: bool): seq<Paint> {
    if layers == [] then []
    else
      var layer := layers[|layers| - 1];
      PaintSide(images, layers[..|layers| - 1], below)
        + if layer.visible && KeyOf(layer) in images && (layer.z < 0) == below
          then [Paint(images[KeyOf(layer)], layer)] else []
  }

  /** The end of sync: drop what no layer needs, rebuild the paint lists. */
  function FinishCache(c: Cache, layers: seq<Layer>): Cache {
    var images := Keep(c.images, Needed(layers));
    Cache(images, Keep(c.gens, Needed(layers)), PaintSide(images, layers, true), PaintSide(images, layers, false),
          c.syncGen)
  }

  /** Storing a decoded image disposes the one it replaces. */
  function Replaced(images: map<Key, Image>, key: Key): multiset<Image> {
    if key in images then multiset{images[key]} else multiset{}
  }

  function StoreImage(c: Cache, layer: Layer, image: Image): Cache {
    c.(images := c.images[KeyOf(layer) := image], gens := c.gens[KeyOf(layer) := layer.generation])
  }

  /** The places after a set of images was disposed. */
  function Dispose(places: seq<Place>, gone: set<Image>): (after: seq<Place>)
    ensures |after| == |places|
    ensures forall n :: 0 <= n < |places| ==> after[n] == if n in gone then Disposed else places[n]
  {
    seq(|places|, n requires 0 <= n < |places| => if n in gone then Disposed else places[n])
  }

  // ---------- the steps ----------

  /** Sync from layer `i` on, as task `id`: to the next miss, or to the end. */
  function Advance(w: World, id: nat, token: nat, layers: seq<Layer>, i: nat): World
    requires i <= |layers|
  {
    var at := NextMiss(w.cache, layers, i);
    if at < |layers| then Suspend(w, id, Task(token, layers, at, None)) else Finish(w, id, layers)
  }

  function Suspend(w: World, id: nat, task: Task): World {
    w.(tasks := w.tasks[id := task])
  }

  function Finish(w: World, id: nat, layers: seq<Layer>): World {
    var gone := Unneeded(w.cache.images, Needed(layers));
    w.(cache := FinishCache(w.cache, layers),
       tasks := w.tasks - {id},
       disposed := w.disposed + multiset(gone),
       places := Dispose(w.places, gone))
  }

  /** A new sync takes the next token, which supersedes all others. */
  function Issued(w: World, layers: seq<Layer>): World {
    w.(cache := w.cache.(syncGen := w.cache.syncGen + 1), nextTask := w.nextTask + 1, latest := layers, missing := {})
  }

  function Start(w: World, layers: seq<Layer>): World {
    Advance(Issued(w, layers), w.nextTask, w.cache.syncGen + 1, layers, 0)
  }

  /** The decoder finishes for a suspended sync, with a new image or without one. */
  function Decoded(w: World, id: nat, ok: bool): World
    requires id in w.tasks && w.tasks[id].at < |w.tasks[id].layers|
  {
    if ok then
      w.(tasks := w.tasks[id := w.tasks[id].(answer := Some(Some(|w.places|)))], places := w.places + [InFlight(id)],
         made := w.made + [w.tasks[id].layers[w.tasks[id].at]])
    else w.(tasks := w.tasks[id := w.tasks[id].(answer := Some(None))])
  }

  /** The sync resumes after its await. */
  function Resume(w: World, id: nat): World
    requires id in w.tasks && w.tasks[id].answer.Some? && w.tasks[id].at < |w.tasks[id].layers|
  {
    var task := w.tasks[id];
    var image := task.answer.value;
    if task.token != w.cache.syncGen then GivenBack(w, id, image)
    else if image.None? then Advance(Missing(w, task.at), id, task.token, task.layers, task.at + 1)
    else Advance(Stored(w, id, image.value), id, task.token, task.layers, task.at + 1)
  }

  function Missing(w: World, at: nat): World {
    w.(missing := w.missing + {at})
  }

  /** A superseded sync ends, and gives back the image it was handed. */
  function GivenBack(w: World, id: nat, image: Option<Image>): World {
    var rest := w.(tasks := w.tasks - {id});
    if image.None? then rest
    else rest.(disposed := w.disposed + multiset{image.value}, places := Dispose(w.places, {image.value}))
  }

  /** The delivered image is now the cache's, the one it replaced is disposed. */
  function Stored(w: World, id: nat, image: Image): World
    requires id in w.tasks && w.tasks[id].at < |w.tasks[id].layers|
  {
    var task := w.tasks[id];
    var layer := task.layers[task.at];
    var gone := if KeyOf(layer) in w.cache.images then {w.cache.images[KeyOf(layer)]} else {};
    var places := Dispose(w.places, gone);
    w.(cache := StoreImage(w.cache, layer, image), tasks := w.tasks[id := task.(answer := None)],
       disposed := w.disposed + Replaced(w.cache.images, KeyOf(layer)),
       places := if image < |places| then places[image := Cached(KeyOf(layer))] else places)
  }

  function DisposeAll(w: World): World {
    var gone := Unneeded(w.cache.images, {});
    w.(cache := Cache(map[], map[], [], [], w.cache.syncGen + 1),
       disposed := w.disposed + multiset(gone),
       places := Dispose(w.places, gone), latest := [], missing := {})
  }

  datatype Step = Sync(layers: seq<Layer>) | Decode(id: nat, ok: bool) | Wake(id: nat) | DisposeCache

  predicate Enabled(w: World, step: Step) {
    match step
    case Sync(_) => true
    case Decode(id, _) => id in w.tasks && w.tasks[id].answer.None? && w.tasks[id].at < |w.tasks[id].layers|
    case Wake(id) => id in w.tasks && w.tasks[id].answer.Some? && w.tasks[id].at < |w.tasks[id].layers|
    case DisposeCache => true
  }

  function Next(w: World, step: Step): World
    requires Enabled(w, step)
  {
    match step
    case Sync(layers) => Start(w, layers)
    case Decode(id, ok) => Decoded(w, id, ok)
    case Wake(id) => Resume(w, id)
    case DisposeCache => DisposeAll(w)
  }

  // ---------- ownership ----------

  /** An image was disposed once if its recorded place is the bin, and else never. */
  ghost predicate DisposedOnce(w: World) {
    forall n: nat :: w.disposed[n] == if n < |w.places| && w.places[n].Disposed? then 1 else 0
  }

  /** The cached images are exactly the ones recorded as cached, each under its own key. */
  ghost predicate CacheOwns(w: World) {
    && (forall k :: k in w.cache.images ==>
          w.cache.images[k] < |w.places| && w.places[w.cache.images[k]] == Cached(k))
    && (forall n :: 0 <= n < |w.places| && w.places[n].Cached? ==>
          w.places[n].key in w.cache.images && w.cache.images[w.places[n].key] == n)
  }

  /** The images handed to suspended syncs are exactly the ones recorded as in flight. */
  ghost predicate FlightsOwned(w: World) {
    && (forall id :: id in w.tasks && w.tasks[id].answer.Some? && w.tasks[id].answer.value.Some? ==>
          w.tasks[id].answer.value.value < |w.places| && w.places[w.tasks[id].answer.value.value] == InFlight(id))
    && (forall n :: 0 <= n < |w.places| && w.places[n].InFlight? ==>
          w.places[n].task in w.tasks && w.tasks[w.places[n].task].answer == Some(Some(n)))
  }

  /** Each image made is in exactly the place recorded for it, and disposed once if that is its place. */
  ghost predicate Owned(w: World) {
    DisposedOnce(w) && CacheOwns(w) && FlightsOwned(w)
  }

  /** Suspended syncs wait inside their layers, have distinct tokens, and none is newer than the counter. */
  ghost predicate Tasks(w: World) {
    && w.cache.gens.Keys == w.cache.images.Keys
    && (forall id :: id in w.tasks ==>
          id < w.nextTask && w.tasks[id].at < |w.tasks[id].layers| && w.tasks[id].token <= w.cache.syncGen)
    && (forall id, id' :: id in w.tasks && id' in w.tasks && w.tasks[id].token == w.tasks[id'].token ==> id == id')
  }

  /** No suspended sync is the newest one. */
  ghost predicate Quiet(w: World) {
    forall id :: id in w.tasks ==> w.tasks[id].token != w.cache.syncGen
  }

  predicate Live(c: Cache, paints: seq<Paint>, below: bool) {
    forall k :: 0 <= k < |paints| ==>
      KeyOf(paints[k].layer) in c.images && c.images[KeyOf(paints[k].layer)] == paints[k].image
      && paints[k].layer.visible && (paints[k].layer.z < 0) == below
  }

  /** While the newest sync is not suspended, what is painted is cached, and split by the sign of z. */
  ghost predicate PaintsLive(w: World) {
    Quiet(w) ==> Live(w.cache, w.cache.below, true) && Live(w.cache, w.cache.above, false)
  }

  lemma {:induction false} PaintSideLive(images: map<Key, Image>, layers: seq<Layer>, below: bool)
    ensures forall k :: 0 <= k < |PaintSide(images, layers, below)| ==>
      var p := PaintSide(images, layers, below)[k];
      KeyOf(p.layer) in images && images[KeyOf(p.layer)] == p.image && p.layer.visible && (p.layer.z < 0) == below
  {
    if layers != [] {
      PaintSideLive(images, layers[..|layers| - 1], below);
    }
  }

  /** Each visible cached layer is painted, on the side its z says. */
  lemma {:induction false} PaintSideComplete(images: map<Key, Image>, layers: seq<Layer>, below: bool, k: nat)
    requires k < |layers| && layers[k].visible && KeyOf(layers[k]) in images && (layers[k].z < 0) == below
    ensures Paint(images[KeyOf(layers[k])], layers[k]) in PaintSide(images, layers, below)
  {
    if k < |layers| - 1 {
      PaintSideComplete(images, layers[..|layers| - 1], below, k);
    }
  }

  lemma SuspendOwned(w: World, id: nat, task: Task)
    requires Owned(w) && (id in w.tasks ==> w.tasks[id].answer in {None, Some(None)}) && task.answer.None?
    ensures Owned(Suspend(w, id, task))
  {
  }

  lemma FinishOwned(w: World, id: nat, layers: seq<Layer>)
    requires Owned(w) && (id in w.tasks ==> w.tasks[id].answer in {None, Some(None)})
    ensures Owned(Finish(w, id, layers))
  {
    UnneededPlaces(w, Unneeded(w.cache.images, Needed(layers)), Needed(layers));
  }

  lemma AdvanceOwned(w: World, id: nat, token: nat, layers: seq<Layer>, i: nat)
    requires Owned(w) && i <= |layers| && (id in w.tasks ==> w.tasks[id].answer in {None, Some(None)})
    ensures Owned(Advance(w, id, token, layers, i))
  {
    var at := NextMiss(w.cache, layers, i);
    if at < |layers| {
      SuspendOwned(w, id, Task(token, layers, at, None));
    } else {
      FinishOwned(w, id, layers);
    }
  }

  lemma UnneededPlaces(w: World, gone: set<Image>, needed: set<Key>)
    requires Owned(w) && gone == Unneeded(w.cache.images, needed)
    ensures forall n :: n in gone <==> 0 <= n < |w.places| && w.places[n].Cached? && w.places[n].key !in needed
  {
    forall n | 0 <= n < |w.places| && w.places[n].Cached? && w.places[n].key !in needed ensures n in gone {
      assert w.cache.images[w.places[n].key] == n;
    }
  }

  /** Storing moves two images: the new one into the cache, the one it replaces to the bin. */
  lemma StoredPlaces(w: World, id: nat, image: Image, n: nat)
    requires CacheOwns(w) && id in w.tasks && w.tasks[id].at < |w.tasks[id].layers|
    requires image < |w.places| && w.places[image] == InFlight(id) && n < |w.places|
    ensures |Stored(w, id, image).places| == |w.places|
    ensures var key := KeyOf(w.tasks[id].layers[w.tasks[id].at]);
      Stored(w, id, image).places[n]
      == if n == image then Cached(key) else if w.places[n] == Cached(key) then Disposed else w.places[n]
  {
  }

  lemma StoredDisposed(w: World, id: nat, image: Image)
    requires Owned(w) && id in w.tasks && w.tasks[id].at < |w.tasks[id].layers|
    requires w.tasks[id].answer == Some(Some(image))
    ensures DisposedOnce(Stored(w, id, image))
  {
    forall n: nat | n < |w.places|
      ensures w.disposed[n] + Replaced(w.cache.images, KeyOf(w.tasks[id].layers[w.tasks[id].at]))[n]
      == if Stored(w, id, image).places[n].Disposed? then 1 else 0 {
      StoredPlaces(w, id, image, n);
    }
  }

  lemma StoredCached(w: World, id: nat, image: Image)
    requires Owned(w) && id in w.tasks && w.tasks[id].at < |w.tasks[id].layers|
    requires w.tasks[id].answer == Some(Some(image))
    ensures CacheOwns(Stored(w, id, image))
  {
    forall n: nat | n < |w.places| ensures var key := KeyOf(w.tasks[id].layers[w.tasks[id].at]);
      Stored(w, id, image).places[n]
      == if n == image then Cached(key) else if w.places[n] == Cached(key) then Disposed else w.places[n] {
      StoredPlaces(w, id, image, n);
    }
  }

  lemma StoredFlights(w: World, id: nat, image: Image)
    requires Owned(w) && id in w.tasks && w.tasks[id].at < |w.tasks[id].layers|
    requires w.tasks[id].answer == Some(Some(image))
    ensures FlightsOwned(Stored(w, id, image))
  {
    forall n: nat | n < |w.places| ensures var key := KeyOf(w.tasks[id].layers[w.tasks[id].at]);
      Stored(w, id, image).places[n]
      == if n == image then Cached(key) else if w.places[n] == Cached(key) then Disposed else w.places[n] {
      StoredPlaces(w, id, image, n);
    }
  }

  lemma StoredOwned(w: World, id: nat, image: Image)
    requires Owned(w) && id in w.tasks && w.tasks[id].at < |w.tasks[id].layers|
    requires w.tasks[id].answer == Some(Some(image))
    ensures Owned(Stored(w, id, image))
  {
    StoredDisposed(w, id, image);
    StoredCached(w, id, image);
    StoredFlights(w, id, image);
  }

  lemma DecodedOwned(w: World, id: nat, ok: bool)
    requires Owned(w) && Enabled(w, Decode(id, ok))
    ensures Owned(Decoded(w, id, ok))
  {
  }

  lemma SupersededOwned(w: World, id: nat)
    requires Owned(w) && Enabled(w, Wake(id)) && w.tasks[id].token != w.cache.syncGen
    ensures Owned(Resume(w, id))
  {
  }

  lemma DisposeOwned(w: World)
    requires Owned(w)
    ensures Owned(DisposeAll(w))
  {
    UnneededPlaces(w, Unneeded(w.cache.images, {}), {});
  }

  /** `id` is the newest sync, and the only task with that token. */
  ghost predicate Newest(w: World, id: nat, token: nat) {
    && token == w.cache.syncGen && id < w.nextTask
    && forall other :: other in w.tasks && other != id ==> w.tasks[other].token != token
  }

  lemma AdvanceTasks(w: World, id: nat, token: nat, layers: seq<Layer>, i: nat)
    requires Tasks(w) && Newest(w, id, token) && i <= |layers|
    ensures Tasks(Advance(w, id, token, layers, i))
  {
  }

  lemma StoredTasks(w: World, id: nat, image: Image)
    requires Tasks(w) && id in w.tasks && w.tasks[id].at < |w.tasks[id].layers|
    ensures Tasks(Stored(w, id, image))
    ensures forall token :: Newest(w, id, token) ==> Newest(Stored(w, id, image), id, token)
  {
  }

  /** The newest sync either suspends again or ends with lists of cached images. */
  lemma AdvancePaints(w: World, id: nat, token: nat, layers: seq<Layer>, i: nat)
    requires Newest(w, id, token) && i <= |layers|
    ensures PaintsLive(Advance(w, id, token, layers, i))
  {
    var images := Keep(w.cache.images, Needed(layers));
    PaintSideLive(images, layers, true);
    PaintSideLive(images, layers, false);
    if NextMiss(w.cache, layers, i) < |layers| {
      assert id in Advance(w, id, token, layers, i).tasks;
    }
  }

  lemma QuietDecoded(w: World, id: nat, ok: bool)
    requires Enabled(w, Decode(id, ok))
    ensures Quiet(Decoded(w, id, ok)) ==> Quiet(w)
  {
    assert forall other :: other in w.tasks ==>
      other in Decoded(w, id, ok).tasks && Decoded(w, id, ok).tasks[other].token == w.tasks[other].token;
  }

  ghost predicate Sound(w: World) {
    Owned(w) && Tasks(w) && PaintsLive(w)
  }

  /** `id` may run on: it is the newest sync, and no image is on its way to it. */
  ghost predicate Ready(w: World, id: nat, token: nat) {
    Owned(w) && Tasks(w) && Newest(w, id, token) && (id in w.tasks ==> w.tasks[id].answer in {None, Some(None)})
  }

  lemma AdvanceSound(w: World, id: nat, token: nat, layers: seq<Layer>, i: nat)
    requires Ready(w, id, token) && i <= |layers|
    ensures Sound(Advance(w, id, token, layers, i))
  {
    AdvanceOwned(w, id, token, layers, i);
    AdvanceTasks(w, id, token, layers, i);
    AdvancePaints(w, id, token, layers, i);
  }

  lemma IssuedReady(w: World, layers: seq<Layer>)
    requires Owned(w) && Tasks(w)
    ensures Ready(Issued(w, layers), w.nextTask, w.cache.syncGen + 1)
  {
  }

  lemma AdvanceFirst(issued: World, id: nat, token: nat, layers: seq<Layer>)
    requires Ready(issued, id, token)
    ensures Sound(Advance(issued, id, token, layers, 0))
  {
    AdvanceSound(issued, id, token, layers, 0);
  }

  lemma SyncSound(w: World, layers: seq<Layer>)
    requires Sound(w)
    ensures Sound(Start(w, layers))
  {
    IssuedReady(w, layers);
    assert Start(w, layers) == Advance(Issued(w, layers), w.nextTask, w.cache.syncGen + 1, layers, 0);
    AdvanceFirst(Issued(w, layers), w.nextTask, w.cache.syncGen + 1, layers);
  }

  lemma DecodedTasks(w: World, id: nat, ok: bool)
    requires Tasks(w) && id in w.tasks
    ensures Tasks(Decoded(w, id, ok))
  {
  }

  lemma DecodeSound(w: World, id: nat, ok: bool)
    requires Sound(w) && Enabled(w, Decode(id, ok))
    ensures Sound(Decoded(w, id, ok))
  {
    DecodedOwned(w, id, ok);
    DecodedTasks(w, id, ok);
    QuietDecoded(w, id, ok);
  }

  lemma SupersededRest(w: World, id: nat)
    requires Tasks(w) && PaintsLive(w) && Enabled(w, Wake(id)) && w.tasks[id].token != w.cache.syncGen
    ensures Tasks(Resume(w, id)) && PaintsLive(Resume(w, id)) && Resume(w, id).cache == w.cache
  {
    assert Resume(w, id).tasks == w.tasks - {id} && Resume(w, id).cache == w.cache;
    assert forall other :: other in w.tasks && other != id ==> other in Resume(w, id).tasks;
  }

  lemma NewestTask(w: World, id: nat)
    requires Tasks(w) && id in w.tasks && w.tasks[id].token == w.cache.syncGen
    ensures Newest(w, id, w.tasks[id].token)
  {
  }

  lemma StoredReady(w: World, id: nat, image: Image)
    requires Owned(w) && Tasks(w) && id in w.tasks && w.tasks[id].answer == Some(Some(image))
    requires w.tasks[id].token == w.cache.syncGen
    ensures Ready(Stored(w, id, image), id, w.tasks[id].token)
  {
    NewestTask(w, id);
    StoredOwned(w, id, image);
    StoredTasks(w, id, image);
  }

  lemma AdvanceStored(w: World, id: nat, image: Image, task: Task)
    requires Owned(w) && Tasks(w) && id in w.tasks && w.tasks[id] == task
    requires task.answer == Some(Some(image)) && task.token == w.cache.syncGen
    ensures Sound(Advance(Stored(w, id, image), id, task.token, task.layers, task.at + 1))
  {
    StoredReady(w, id, image);
    AdvanceSound(Stored(w, id, image), id, task.token, task.layers, task.at + 1);
  }

  lemma ResumeStores(w: World, id: nat, image: Image, task: Task)
    requires Enabled(w, Wake(id)) && w.tasks[id] == task
    requires task.answer == Some(Some(image)) && task.token == w.cache.syncGen
    ensures Resume(w, id) == Advance(Stored(w, id, image), id, task.token, task.layers, task.at + 1)
  {
  }

  lemma StoreSound(w: World, id: nat)
    requires Sound(w) && Enabled(w, Wake(id)) && w.tasks[id].token == w.cache.syncGen && w.tasks[id].answer.value.Some?
    ensures Sound(Resume(w, id))
  {
    var task := w.tasks[id];
    ResumeStores(w, id, task.answer.value.value, task);
    AdvanceStored(w, id, task.answer.value.value, task);
  }

  lemma MissingReady(w: World, id: nat, token: nat, at: nat)
    requires Ready(w, id, token)
    ensures Ready(Missing(w, at), id, token)
  {
  }

  lemma SkipSound(w: World, id: nat, task: Task)
    requires Sound(w) && Enabled(w, Wake(id)) && w.tasks[id] == task
    requires task.token == w.cache.syncGen && task.answer == Some(None)
    ensures Sound(Resume(w, id))
  {
    NewestTask(w, id);
    MissingReady(w, id, task.token, task.at);
    AdvanceSound(Missing(w, task.at), id, task.token, task.layers, task.at + 1);
    assert Resume(w, id) == Advance(Missing(w, task.at), id, task.token, task.layers, task.at + 1);
  }

  lemma WakeSound(w: World, id: nat)
    requires Sound(w) && Enabled(w, Wake(id))
    ensures Sound(Resume(w, id))
  {
    if w.tasks[id].token != w.cache.syncGen {
      SupersededOwned(w, id);
      SupersededRest(w, id);
    } else if w.tasks[id].answer.value.Some? {
      StoreSound(w, id);
    } else {
      SkipSound(w, id, w.tasks[id]);
    }
  }

  lemma DisposeSound(w: World)
    requires Sound(w)
    ensures Sound(DisposeAll(w))
  {
    DisposeOwned(w);
  }

  lemma SoundStep(w: World, step: Step)
    requires Sound(w) && Enabled(w, step)
    ensures Sound(Next(w, step))
  {
    match step
    case Sync(layers) => SyncSound(w, layers);
    case Decode(id, ok) => DecodeSound(w, id, ok);
    case Wake(id) => WakeSound(w, id);
    case DisposeCache => DisposeSound(w);
  }

  function Run(steps: seq<Step>): Option<World> {
    if steps == [] then Some(EMPTY)
    else
      var before, step := Run(steps[..|steps| - 1]), steps[|steps| - 1];
      if before.None? || !Enabled(before.value, step) then None else Some(Next(before.value, step))
  }

  /**
   Over any interleaving of syncs, decoder answers, resumptions and disposes: each image is in flight, cached or
   disposed, one of these only, and disposed at most once; and when the newest sync is not suspended, the paint
   lists show cached images only.
   */
  lemma {:induction false} CacheInvariant(steps: seq<Step>)
    requires Run(steps).Some?
    ensures Sound(Run(steps).value)
  {
    if steps != [] {
      CacheInvariant(steps[..|steps| - 1]);
      SoundStep(Run(steps[..|steps| - 1]).value, steps[|steps| - 1]);
    }
  }

  /** A superseded sync that resumes leaves the cache alone and gives back the image it was handed. */
  lemma SupersededSyncIsInert(w: World, id: nat)
    requires Owned(w) && Tasks(w) && Enabled(w, Wake(id)) && w.tasks[id].token != w.cache.syncGen
    ensures Next(w, Wake(id)).cache == w.cache && id !in Next(w, Wake(id)).tasks
    ensures w.tasks[id].answer.value.Some? ==>
      (var image := w.tasks[id].answer.value.value; w.disposed[image] == 0 && Next(w, Wake(id)).disposed[image] == 1)
  {
  }

  function SideOf(c: Cache, below: bool): seq<Paint> {
    if below then c.below else c.above
  }

  /** What is painted is cached, hence not disposed. */
  lemma PaintedIsNotDisposed(w: World, p: Paint, below: bool)
    requires Owned(w) && Live(w.cache, SideOf(w.cache, below), below) && p in SideOf(w.cache, below)
    ensures w.disposed[p.image] == 0
  {
    var k :| 0 <= k < |SideOf(w.cache, below)| && SideOf(w.cache, below)[k] == p;
    assert w.places[w.cache.images[KeyOf(p.layer)]] == Cached(KeyOf(p.layer));
  }

  lemma StoredDisposesOld(w: World, id: nat, image: Image)
    requires Owned(w) && id in w.tasks && w.tasks[id].at < |w.tasks[id].layers|
    requires w.tasks[id].answer == Some(Some(image))
    ensures var key := KeyOf(w.tasks[id].layers[w.tasks[id].at]);
      key in w.cache.images ==> Stored(w, id, image).disposed[w.cache.images[key]] == 1
  {
  }

  /** When the newest sync has all its layers, nothing it paints is disposed. */
  lemma RebuiltPaintIsLive(w: World, id: nat, p: Paint, below: bool)
    requires Sound(w) && Enabled(w, Wake(id)) && w.tasks[id].token == w.cache.syncGen && w.tasks[id].answer.value.Some?
    requires var task := w.tasks[id];
      NextMiss(Stored(w, id, task.answer.value.value).cache, task.layers, task.at + 1) == |task.layers|
    ensures p in SideOf(Next(w, Wake(id)).cache, below) ==> Next(w, Wake(id)).disposed[p.image] == 0
  {
    var after := Next(w, Wake(id));
    StoreSound(w, id);
    PaintSideLive(after.cache.images, w.tasks[id].layers, below);
    if p in SideOf(after.cache, below) {
      PaintedIsNotDisposed(after, p, below);
    }
  }

  /**
   The newest sync replaces an image that is painted, below the text or above it. That side goes on naming the
   disposed image exactly if the sync has to wait for another layer; it rebuilds both sides only at its end.
   */
  lemma StalePaintIff(w: World, id: nat, p: Paint, below: bool)
    requires Sound(w) && Enabled(w, Wake(id)) && w.tasks[id].token == w.cache.syncGen && w.tasks[id].answer.value.Some?
    requires var key := KeyOf(w.tasks[id].layers[w.tasks[id].at]);
      p in SideOf(w.cache, below) && key in w.cache.images && w.cache.images[key] == p.image
    ensures var task, after := w.tasks[id], Next(w, Wake(id));
      var stored := Stored(w, id, task.answer.value.value);
      (p in SideOf(after.cache, below) && after.disposed[p.image] == 1)
      <==> NextMiss(stored.cache, task.layers, task.at + 1) < |task.layers|
  {
    var task := w.tasks[id];
    StoredDisposesOld(w, id, task.answer.value.value);
    if NextMiss(Stored(w, id, task.answer.value.value).cache, task.layers, task.at + 1) == |task.layers| {
      RebuiltPaintIsLive(w, id, p, below);
    }
  }

  // ---------- nothing is leaked ----------

  predicate NoSync(steps: seq<Step>) {
    forall k :: 0 <= k < |steps| ==> !steps[k].Sync?
  }

  /** Every suspended sync is superseded, and nothing is cached. */
  ghost predicate Emptied(w: World) {
    Quiet(w) && w.cache.images == map[]
  }

  lemma EmptiedStep(w: World, step: Step)
    requires Tasks(w) && Enabled(w, step) && !step.Sync? && (step.DisposeCache? || Emptied(w))
    ensures Emptied(Next(w, step))
  {
  }

  lemma LastEmpties(init: seq<Step>, step: Step, steps: seq<Step>)
    requires steps == init + [step] && Run(steps).Some? && !step.Sync?
    requires Run(init).Some? ==> step.DisposeCache? || Emptied(Run(init).value)
    ensures Emptied(Run(steps).value)
  {
    assert steps[..|steps| - 1] == init;
    CacheInvariant(init);
    EmptiedStep(Run(init).value, step);
  }

  lemma LastOfRun(before: seq<Step>, after: seq<Step>)
    requires after != []
    ensures before + [DisposeCache] + after == before + [DisposeCache] + after[..|after| - 1] + [after[|after| - 1]]
  {
  }

  lemma RunOfInit(init: seq<Step>, step: Step)
    ensures Run(init + [step]).Some? ==> Run(init).Some?
  {
    assert (init + [step])[..|init|] == init;
  }

  lemma {:induction false} StaysEmptied(before: seq<Step>, after: seq<Step>, steps: seq<Step>)
    requires NoSync(after) && steps == before + [DisposeCache] + after && Run(steps).Some?
    ensures Emptied(Run(steps).value)
  {
    if after == [] {
      LastEmpties(before, DisposeCache, steps);
    } else {
      var init, step := before + [DisposeCache] + after[..|after| - 1], after[|after| - 1];
      LastOfRun(before, after);
      RunOfInit(init, step);
      StaysEmptied(before, after[..|after| - 1], init);
      LastEmpties(init, step, steps);
    }
  }

  /**
   Whatever syncs are in flight when the cache is disposed: once they have all ended, and none was begun since,
   every image ever made has been disposed exactly once.
   */
  lemma NoLeakAfterDispose(before: seq<Step>, after: seq<Step>, n: nat)
    requires NoSync(after) && Run(before + [DisposeCache] + after).Some?
    requires var end := Run(before + [DisposeCache] + after).value; end.tasks == map[] && n < |end.places|
    ensures Run(before + [DisposeCache] + after).value.disposed[n] == 1
  {
    CacheInvariant(before + [DisposeCache] + after);
    StaysEmptied(before, after, before + [DisposeCache] + after);
  }
}
