/**
 What the image cache shows: when the newest sync has ended, the images of that sync's layers and no others, each
 made for its own layer and of its generation, painted in the layers' order. Over every interleaving.
 */
module ImageFreshness {
  import opened Bytes
  import opened ImageCache

  /** No layer after `j`, of the first `i`, has its key. */
  predicate LastOfKey(layers: seq<Layer>, j: nat, i: nat)
    requires j < i <= |layers|
  {
    forall m :: j < m < i ==> KeyOf(layers[m]) != KeyOf(layers[j])
  }

  /** The image was made for a layer of this key and generation. */
  predicate MadeFor(w: World, image: Image, layer: Layer) {
    image < |w.made| && KeyOf(w.made[image]) == KeyOf(layer) && w.made[image].generation == layer.generation
  }

  /** Each cached image was made for its key, and for the generation noted with it; so was each one on its way. */
  ghost predicate Made(w: World) {
    && |w.made| == |w.places| && w.cache.gens.Keys == w.cache.images.Keys
    && (forall k :: k in w.cache.images ==>
          && w.cache.images[k] < |w.made| && KeyOf(w.made[w.cache.images[k]]) == k
          && w.made[w.cache.images[k]].generation == w.cache.gens[k])
    && (forall id :: id in w.tasks && w.tasks[id].answer.Some? && w.tasks[id].answer.value.Some? ==>
          && w.tasks[id].at < |w.tasks[id].layers|
          && MadeFor(w, w.tasks[id].answer.value.value, w.tasks[id].layers[w.tasks[id].at]))
  }

  /** Of the newest sync's first `i` layers, each that is the last of its key and has an image is up to date. */
  ghost predicate Current(w: World, i: nat) {
    && i <= |w.latest|
    && forall j :: 0 <= j < i && LastOfKey(w.latest, j, i) && j !in w.missing ==>
         && KeyOf(w.latest[j]) in w.cache.images && KeyOf(w.latest[j]) in w.cache.gens
         && w.cache.gens[KeyOf(w.latest[j])] == w.latest[j].generation
  }

  /** What the cache shows is made of the newest sync's layers alone. */
  ghost predicate Shown(w: World) {
    && Current(w, |w.latest|) && w.cache.images.Keys <= Needed(w.latest)
    && w.cache.below == PaintSide(w.cache.images, w.latest, true)
    && w.cache.above == PaintSide(w.cache.images, w.latest, false)
  }

  /** While the newest sync is suspended its layers are up to date as far as it came; then all of them are. */
  ghost predicate Fresh(w: World) {
    && (forall id :: id in w.tasks && w.tasks[id].token == w.cache.syncGen ==>
          w.tasks[id].layers == w.latest && Current(w, w.tasks[id].at))
    && (Quiet(w) ==> Shown(w))
  }

  // ---------- one step ----------

  lemma MissKeepsCurrent(w: World, i: nat)
    requires Made(w) && Current(w, i)
    ensures Current(w, NextMiss(w.cache, w.latest, i))
  {
    var at := NextMiss(w.cache, w.latest, i);
    forall j | 0 <= j < at && LastOfKey(w.latest, j, at) && j !in w.missing
      ensures KeyOf(w.latest[j]) in w.cache.images && KeyOf(w.latest[j]) in w.cache.gens
      ensures w.cache.gens[KeyOf(w.latest[j])] == w.latest[j].generation
    {
      if j < i {
        assert LastOfKey(w.latest, j, i);
      } else {
        StaysUpToDate(w.cache, w.latest, i, j);
      }
    }
  }

  /** The layers that are passed over are cached, in their generation. */
  lemma {:induction false} StaysUpToDate(c: Cache, layers: seq<Layer>, i: nat, j: nat)
    requires i <= |layers| && i <= j < NextMiss(c, layers, i)
    ensures KeyOf(layers[j]) in c.images && KeyOf(layers[j]) in c.gens
    ensures c.gens[KeyOf(layers[j])] == layers[j].generation
    decreases j - i
  {
    if i < j {
      StaysUpToDate(c, layers, i + 1, j);
    }
  }

  lemma NeededHas(layers: seq<Layer>, j: nat)
    requires j < |layers|
    ensures KeyOf(layers[j]) in Needed(layers)
  {
  }

  lemma FinishShows(w: World, id: nat)
    requires Made(w) && Current(w, |w.latest|)
    ensures Made(Finish(w, id, w.latest)) && Shown(Finish(w, id, w.latest))
  {
    var after := Finish(w, id, w.latest);
    forall j | 0 <= j < |w.latest| && LastOfKey(w.latest, j, |w.latest|) && j !in w.missing
      ensures KeyOf(w.latest[j]) in after.cache.images && KeyOf(w.latest[j]) in after.cache.gens
      ensures after.cache.gens[KeyOf(w.latest[j])] == w.latest[j].generation
    {
      NeededHas(w.latest, j);
    }
  }

  lemma FinishFresh(w: World, id: nat, token: nat)
    requires Made(w) && Current(w, |w.latest|) && Newest(w, id, token)
    ensures Made(Finish(w, id, w.latest)) && Fresh(Finish(w, id, w.latest))
  {
    FinishShows(w, id);
  }

  lemma SuspendFresh(w: World, id: nat, token: nat, at: nat)
    requires Made(w) && Current(w, at) && Newest(w, id, token) && at < |w.latest|
    ensures var after := Suspend(w, id, Task(token, w.latest, at, None)); Made(after) && Fresh(after)
  {
    var after := Suspend(w, id, Task(token, w.latest, at, None));
    assert id in after.tasks && after.tasks[id].token == after.cache.syncGen;
    assert Current(after, at);
  }

  lemma AdvanceFresh(w: World, id: nat, token: nat, i: nat)
    requires Made(w) && Current(w, i) && Newest(w, id, token)
    ensures Made(Advance(w, id, token, w.latest, i)) && Fresh(Advance(w, id, token, w.latest, i))
  {
    MissKeepsCurrent(w, i);
    if NextMiss(w.cache, w.latest, i) < |w.latest| {
      SuspendFresh(w, id, token, NextMiss(w.cache, w.latest, i));
    } else {
      FinishFresh(w, id, token);
    }
  }

  /** The newest sync may run on from layer `i`. */
  ghost predicate MayRunOn(w: World, id: nat, token: nat, layers: seq<Layer>, i: nat) {
    Made(w) && layers == w.latest && Current(w, i) && Newest(w, id, token)
  }

  lemma RunsOnFresh(w: World, id: nat, token: nat, layers: seq<Layer>, i: nat, after: World)
    requires MayRunOn(w, id, token, layers, i) && after == Advance(w, id, token, layers, i)
    ensures Made(after) && Fresh(after)
  {
    AdvanceFresh(w, id, token, i);
  }

  lemma IssuedRunsOn(w: World, layers: seq<Layer>)
    requires Made(w) && Tasks(w)
    ensures MayRunOn(Issued(w, layers), w.nextTask, w.cache.syncGen + 1, layers, 0)
  {
  }

  lemma StartFresh(w: World, layers: seq<Layer>)
    requires Made(w) && Tasks(w)
    ensures Made(Start(w, layers)) && Fresh(Start(w, layers))
  {
    IssuedRunsOn(w, layers);
    RunsOnFresh(Issued(w, layers), w.nextTask, w.cache.syncGen + 1, layers, 0, Start(w, layers));
  }

  lemma DecodeFresh(w: World, id: nat, ok: bool)
    requires Made(w) && Fresh(w) && Enabled(w, Decode(id, ok))
    ensures Made(Decoded(w, id, ok)) && Fresh(Decoded(w, id, ok))
  {
    QuietDecoded(w, id, ok);
    var after := Decoded(w, id, ok);
    assert forall i :: Current(w, i) ==> Current(after, i);
  }

  lemma GiveBackFresh(w: World, id: nat, image: Option<Image>)
    requires Made(w) && Fresh(w) && id in w.tasks && w.tasks[id].token != w.cache.syncGen
    ensures Made(GivenBack(w, id, image)) && Fresh(GivenBack(w, id, image))
  {
    var after := GivenBack(w, id, image);
    assert forall i :: Current(w, i) ==> Current(after, i);
    assert Quiet(after) ==> Quiet(w) by {
      assert forall other :: other in w.tasks && other != id ==> other in after.tasks;
    }
  }

  lemma StoreCurrent(w: World, id: nat, image: Image, at: nat)
    requires Made(w) && id in w.tasks && w.tasks[id].answer == Some(Some(image))
    requires w.tasks[id].layers == w.latest && w.tasks[id].at == at < |w.latest| && Current(w, at)
    ensures Made(Stored(w, id, image)) && Current(Stored(w, id, image), at + 1)
  {
    var after := Stored(w, id, image);
    forall j | 0 <= j < at + 1 && LastOfKey(w.latest, j, at + 1) && j !in w.missing
      ensures KeyOf(w.latest[j]) in after.cache.images && KeyOf(w.latest[j]) in after.cache.gens
      ensures after.cache.gens[KeyOf(w.latest[j])] == w.latest[j].generation
    {
      if j < at {
        assert LastOfKey(w.latest, j, at) && KeyOf(w.latest[at]) != KeyOf(w.latest[j]);
      }
    }
  }

  lemma MissingCurrent(w: World, at: nat)
    requires Current(w, at) && at < |w.latest|
    ensures Current(Missing(w, at), at + 1)
  {
    forall j | 0 <= j < at && LastOfKey(w.latest, j, at + 1) ensures LastOfKey(w.latest, j, at) {
    }
  }

  lemma StoredRunsOn(w: World, id: nat, image: Image, task: Task)
    requires Tasks(w) && Made(w) && Fresh(w) && id in w.tasks && w.tasks[id] == task
    requires task.answer == Some(Some(image)) && task.token == w.cache.syncGen
    ensures MayRunOn(Stored(w, id, image), id, task.token, task.layers, task.at + 1)
  {
    StoreCurrent(w, id, image, task.at);
    NewestTask(w, id);
    StoredTasks(w, id, image);
  }

  lemma MissingRunsOn(w: World, id: nat, task: Task)
    requires Tasks(w) && Made(w) && Fresh(w) && id in w.tasks && w.tasks[id] == task
    requires task.answer == Some(None) && task.token == w.cache.syncGen
    ensures MayRunOn(Missing(w, task.at), id, task.token, task.layers, task.at + 1)
  {
    MissingCurrent(w, task.at);
    NewestTask(w, id);
  }

  lemma ResumeSkips(w: World, id: nat, task: Task)
    requires Enabled(w, Wake(id)) && w.tasks[id] == task
    requires task.answer == Some(None) && task.token == w.cache.syncGen
    ensures Resume(w, id) == Advance(Missing(w, task.at), id, task.token, task.layers, task.at + 1)
  {
  }

  lemma StoreFresh(w: World, id: nat, image: Image, task: Task, after: World)
    requires Tasks(w) && Made(w) && Fresh(w) && Enabled(w, Wake(id)) && w.tasks[id] == task && after == Resume(w, id)
    requires task.answer == Some(Some(image)) && task.token == w.cache.syncGen
    ensures Made(after) && Fresh(after)
  {
    StoredRunsOn(w, id, image, task);
    ResumeStores(w, id, image, task);
    RunsOnFresh(Stored(w, id, image), id, task.token, task.layers, task.at + 1, after);
  }

  lemma SkipFresh(w: World, id: nat, task: Task, after: World)
    requires Tasks(w) && Made(w) && Fresh(w) && Enabled(w, Wake(id)) && w.tasks[id] == task && after == Resume(w, id)
    requires task.answer == Some(None) && task.token == w.cache.syncGen
    ensures Made(after) && Fresh(after)
  {
    MissingRunsOn(w, id, task);
    ResumeSkips(w, id, task);
    RunsOnFresh(Missing(w, task.at), id, task.token, task.layers, task.at + 1, after);
  }

  lemma ResumeFresh(w: World, id: nat)
    requires Tasks(w) && Made(w) && Fresh(w) && Enabled(w, Wake(id))
    ensures Made(Resume(w, id)) && Fresh(Resume(w, id))
  {
    var task, after := w.tasks[id], Resume(w, id);
    if task.token != w.cache.syncGen {
      GiveBackFresh(w, id, task.answer.value);
      assert after == GivenBack(w, id, task.answer.value);
    } else if task.answer.value.Some? {
      StoreFresh(w, id, task.answer.value.value, task, after);
    } else {
      SkipFresh(w, id, task, after);
    }
  }

  lemma DisposeFresh(w: World)
    requires Tasks(w) && Made(w)
    ensures Made(DisposeAll(w)) && Fresh(DisposeAll(w))
  {
  }

  lemma FreshStep(w: World, step: Step)
    requires Tasks(w) && Made(w) && Fresh(w) && Enabled(w, step)
    ensures Made(Next(w, step)) && Fresh(Next(w, step))
  {
    match step
    case Sync(layers) => StartFresh(w, layers);
    case Decode(id, ok) => DecodeFresh(w, id, ok);
    case Wake(id) => ResumeFresh(w, id);
    case DisposeCache => DisposeFresh(w);
  }

  lemma TasksInRun(steps: seq<Step>)
    requires Run(steps).Some?
    ensures Tasks(Run(steps).value)
  {
    CacheInvariant(steps);
  }

  lemma {:induction false} FreshInvariant(steps: seq<Step>)
    requires Run(steps).Some?
    ensures Made(Run(steps).value) && Fresh(Run(steps).value)
  {
    if steps != [] {
      var before := steps[..|steps| - 1];
      FreshInvariant(before);
      TasksInRun(before);
      FreshStep(Run(before).value, steps[|steps| - 1]);
    }
  }

  // ---------- what is missing ----------

  /** The decoder failed for layer `j` of these layers. */
  ghost predicate FailedFor(steps: seq<Step>, layers: seq<Layer>, j: nat) {
    exists k: nat :: k < |steps| && FailsAt(steps, k, layers, j)
  }

  predicate FailsAt(steps: seq<Step>, k: nat, layers: seq<Layer>, j: nat)
    requires k < |steps|
  {
    var w := Run(steps[..k]);
    && steps[k].Decode? && !steps[k].ok && w.Some? && steps[k].id in w.value.tasks
    && w.value.tasks[steps[k].id].layers == layers && w.value.tasks[steps[k].id].at == j
  }

  /** The layers noted as missing, and the ones about to be, are layers the decoder failed for. */
  ghost predicate FailuresKnown(steps: seq<Step>, w: World) {
    && (forall id :: id in w.tasks && w.tasks[id].answer == Some(None) ==>
          FailedFor(steps, w.tasks[id].layers, w.tasks[id].at))
    && (forall j :: j in w.missing ==> FailedFor(steps, w.latest, j))
  }

  lemma StillFailed(before: seq<Step>, steps: seq<Step>, layers: seq<Layer>, j: nat)
    requires before <= steps && FailedFor(before, layers, j)
    ensures FailedFor(steps, layers, j)
  {
    var k: nat :| k < |before| && FailsAt(before, k, layers, j);
    assert before[..k] == steps[..k];
    assert FailsAt(steps, k, layers, j);
  }

  lemma FailuresKept(before: seq<Step>, steps: seq<Step>, w: World)
    requires before <= steps && FailuresKnown(before, w)
    ensures FailuresKnown(steps, w)
  {
    forall id | id in w.tasks && w.tasks[id].answer == Some(None)
      ensures FailedFor(steps, w.tasks[id].layers, w.tasks[id].at) {
      StillFailed(before, steps, w.tasks[id].layers, w.tasks[id].at);
    }
    forall j | j in w.missing ensures FailedFor(steps, w.latest, j) {
      StillFailed(before, steps, w.latest, j);
    }
  }

  lemma AdvanceKnown(steps: seq<Step>, w: World, id: nat, token: nat, layers: seq<Layer>, i: nat)
    requires FailuresKnown(steps, w) && i <= |layers|
    ensures FailuresKnown(steps, Advance(w, id, token, layers, i))
  {
  }

  lemma GivenBackKnown(steps: seq<Step>, w: World, id: nat, image: Option<Image>)
    requires FailuresKnown(steps, w)
    ensures FailuresKnown(steps, GivenBack(w, id, image))
  {
  }

  lemma StoredKnown(steps: seq<Step>, w: World, id: nat, image: Image)
    requires FailuresKnown(steps, w) && id in w.tasks && w.tasks[id].at < |w.tasks[id].layers|
    ensures FailuresKnown(steps, Stored(w, id, image))
  {
  }

  lemma MissingKnown(steps: seq<Step>, w: World, at: nat)
    requires FailuresKnown(steps, w) && FailedFor(steps, w.latest, at)
    ensures FailuresKnown(steps, Missing(w, at))
  {
  }

  lemma WakeKnown(steps: seq<Step>, w: World, id: nat, task: Task)
    requires FailuresKnown(steps, w) && Enabled(w, Wake(id)) && w.tasks[id] == task
    requires task.token == w.cache.syncGen ==> task.layers == w.latest
    ensures FailuresKnown(steps, Resume(w, id))
  {
    var image := task.answer.value;
    if task.token != w.cache.syncGen {
      GivenBackKnown(steps, w, id, image);
    } else if image.Some? {
      StoredKnown(steps, w, id, image.value);
      AdvanceKnown(steps, Stored(w, id, image.value), id, task.token, task.layers, task.at + 1);
    } else {
      MissingKnown(steps, w, task.at);
      AdvanceKnown(steps, Missing(w, task.at), id, task.token, task.layers, task.at + 1);
    }
  }

  lemma FailuresStep(before: seq<Step>, w: World, step: Step)
    requires Run(before) == Some(w) && Enabled(w, step) && FailuresKnown(before + [step], w) && Tasks(w) && Fresh(w)
    ensures FailuresKnown(before + [step], Next(w, step))
  {
    var steps := before + [step];
    match step
    case Sync(layers) => AdvanceKnown(steps, Issued(w, layers), w.nextTask, w.cache.syncGen + 1, layers, 0);
    case Wake(id) => WakeKnown(steps, w, id, w.tasks[id]);
    case DisposeCache =>
    case Decode(id, ok) =>
      if !ok {
        assert steps[..|before|] == before;
        assert FailsAt(steps, |before|, w.tasks[id].layers, w.tasks[id].at);
      }
  }

  lemma FailuresSnoc(before: seq<Step>, w: World, step: Step)
    requires Run(before) == Some(w) && Enabled(w, step) && FailuresKnown(before, w)
    ensures FailuresKnown(before + [step], Next(w, step))
  {
    FreshInvariant(before);
    TasksInRun(before);
    FailuresKept(before, before + [step], w);
    FailuresStep(before, w, step);
  }

  /** In every run only such layers of the newest sync are noted as missing that the decoder failed for. */
  lemma {:induction false} OnlyFailuresAreMissing(steps: seq<Step>)
    requires Run(steps).Some?
    ensures FailuresKnown(steps, Run(steps).value)
  {
    if steps != [] {
      var before, step := steps[..|steps| - 1], steps[|steps| - 1];
      OnlyFailuresAreMissing(before);
      FailuresSnoc(before, Run(before).value, step);
      assert steps == before + [step];
    }
  }

  // ---------- what is shown ----------

  /** The layers of the last sync of the run, none after a dispose. */
  function LastSynced(steps: seq<Step>): seq<Layer> {
    if steps == [] then []
    else
      match steps[|steps| - 1]
      case Sync(layers) => layers
      case DisposeCache => []
      case _ => LastSynced(steps[..|steps| - 1])
  }

  lemma LatestStep(w: World, step: Step)
    requires Enabled(w, step)
    ensures Next(w, step).latest
      == match step
         case Sync(layers) => layers
         case DisposeCache => []
         case _ => w.latest
  {
  }

  lemma {:induction false} LatestInRun(steps: seq<Step>)
    requires Run(steps).Some?
    ensures Run(steps).value.latest == LastSynced(steps)
  {
    if steps != [] {
      LatestInRun(steps[..|steps| - 1]);
      LatestStep(Run(steps[..|steps| - 1]).value, steps[|steps| - 1]);
    }
  }

  /**
   In every run, whenever the newest sync is not suspended: each of its layers that the decoder did not fail for has an
   image cached, made for its own key and its own generation, where no later layer has the same key; and the cache
   holds images of its layers only.
   */
  lemma LatestIsCached(steps: seq<Step>, j: nat)
    requires Run(steps).Some? && Quiet(Run(steps).value)
    requires var layers := LastSynced(steps); j < |layers| && LastOfKey(layers, j, |layers|)
    requires !FailedFor(steps, LastSynced(steps), j)
    ensures var w, layer := Run(steps).value, LastSynced(steps)[j];
      KeyOf(layer) in w.cache.images && MadeFor(w, w.cache.images[KeyOf(layer)], layer)
  {
    FreshInvariant(steps);
    LatestInRun(steps);
    OnlyFailuresAreMissing(steps);
  }

  lemma NothingElseIsCached(steps: seq<Step>, key: Key)
    requires Run(steps).Some? && Quiet(Run(steps).value) && key in Run(steps).value.cache.images
    ensures var w, layers := Run(steps).value, LastSynced(steps);
      && (exists j :: 0 <= j < |layers| && KeyOf(layers[j]) == key)
      && w.cache.images[key] < |w.made| && KeyOf(w.made[w.cache.images[key]]) == key
  {
    FreshInvariant(steps);
    LatestInRun(steps);
  }

  /** The entry a layer adds to one side: none if it is not visible, not cached, or belongs to the other side. */
  function EntryOf(images: map<Key, Image>, layer: Layer, below: bool): seq<Paint> {
    if layer.visible && KeyOf(layer) in images && (if below then layer.z < 0 else layer.z >= 0)
    then [Paint(images[KeyOf(layer)], layer)] else []
  }

  lemma {:induction false} PaintsInOrder(images: map<Key, Image>, layers: seq<Layer>, below: bool)
    ensures PaintSide(images, layers, below)
      == Flatten(seq(|layers|, k requires 0 <= k < |layers| => EntryOf(images, layers[k], below)))
  {
    var parts := seq(|layers|, k requires 0 <= k < |layers| => EntryOf(images, layers[k], below));
    if layers != [] {
      var n := |layers| - 1;
      var front := seq(n, k requires 0 <= k < n => EntryOf(images, layers[..n][k], below));
      PaintsInOrder(images, layers[..n], below);
      assert parts == front + [EntryOf(images, layers[n], below)];
      FlattenLast(front, EntryOf(images, layers[n], below));
    }
  }

  /** And each side of the text shows the newest sync's layers that are visible and cached, in their order. */
  lemma LatestIsPainted(steps: seq<Step>, below: bool)
    requires Run(steps).Some? && Quiet(Run(steps).value)
    ensures var w, layers := Run(steps).value, LastSynced(steps);
      SideOf(w.cache, below)
      == Flatten(seq(|layers|, k requires 0 <= k < |layers| => EntryOf(w.cache.images, layers[k], below)))
  {
    FreshInvariant(steps);
    LatestInRun(steps);
    PaintsInOrder(Run(steps).value.cache.images, Run(steps).value.latest, below);
  }
}
