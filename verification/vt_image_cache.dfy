/**
 The image cache as the class it is: sync runs from one await to the next, the decoder answers, dispose empties the
 cache, and each of these is proved to take the step of ImageCache that models it. `steps` is the history of the
 object, so all that is proved about runs holds of it.
 */
module VtImageCaches {
  import opened Bytes
  import opened ImageCache

  ghost predicate OneKeyEach(images: map<Key, Image>) {
    forall k, k' :: k in images && k' in images && images[k] == images[k'] ==> k == k'
  }

  ghost function ImagesOf(images: map<Key, Image>, keys: set<Key>): set<Image> {
    set k | k in keys && k in images :: images[k]
  }

  lemma DroppedToo(images: map<Key, Image>, gone: set<Key>, key: Key)
    requires OneKeyEach(images) && key in images && key !in gone
    ensures multiset(ImagesOf(images, gone + {key})) == multiset(ImagesOf(images, gone)) + multiset{images[key]}
  {
    assert ImagesOf(images, gone + {key}) == ImagesOf(images, gone) + {images[key]};
    assert images[key] !in ImagesOf(images, gone);
  }

  lemma DropTwice<V>(m: map<Key, V>, gone: set<Key>, key: Key)
    ensures m - gone - {key} == m - (gone + {key})
  {
  }

  lemma RunSnoc(steps: seq<Step>, w: World, step: Step)
    requires Run(steps) == Some(w) && Enabled(w, step)
    ensures Run(steps + [step]) == Some(Next(w, step))
  {
    assert (steps + [step])[..|steps|] == steps;
  }

  /** What a run's world says of the cache's own maps, and of the image on its way to a sync. */
  lemma KeyedInRun(steps: seq<Step>, w: World)
    requires Run(steps) == Some(w)
    ensures w.cache.gens.Keys == w.cache.images.Keys && OneKeyEach(w.cache.images)
  {
    CacheInvariant(steps);
  }

  lemma NewInRun(steps: seq<Step>, w: World, id: nat, image: Image)
    requires Run(steps) == Some(w) && id in w.tasks && w.tasks[id].answer == Some(Some(image))
    ensures image !in w.cache.images.Values
  {
    CacheInvariant(steps);
  }

  lemma FinishIs(w: World, id: nat, layers: seq<Layer>, after: World)
    requires after.cache == FinishCache(w.cache, layers)
    requires var gone := Unneeded(w.cache.images, Needed(layers));
      after == w.(cache := after.cache, tasks := w.tasks - {id}, disposed := w.disposed + multiset(gone),
                  places := ImageCache.Dispose(w.places, gone))
    ensures after == Finish(w, id, layers)
  {
  }

  class VtImageCache {
    var images: map<Key, Image>
    var gens: map<Key, int>
    var paintBelow: seq<Paint>
    var paintAbove: seq<Paint>
    var syncGen: nat
    // the suspended syncs, by number
    var tasks: map<nat, Task>
    var nextTask: nat
    // how often each image was disposed, where each is, the rest of the world's books, and all steps taken
    ghost var disposed: multiset<Image>
    ghost var places: seq<Place>
    ghost var made: seq<Layer>
    ghost var latest: seq<Layer>
    ghost var missing: set<nat>
    ghost var steps: seq<Step>

    ghost function View(): Cache
      reads this
    {
      Cache(images, gens, paintBelow, paintAbove, syncGen)
    }

    ghost function State(): World
      reads this
    {
      World(View(), tasks, nextTask, disposed, places, made, latest, missing)
    }

    /** The object is what its history makes it. */
    ghost predicate Valid()
      reads this
    {
      Run(steps) == Some(State())
    }

    /** No two keys share an image. */
    ghost predicate Keyed()
      reads this
    {
      gens.Keys == images.Keys && OneKeyEach(images)
    }

    constructor ()
      ensures Valid() && steps == []
    {
      images, gens, paintBelow, paintAbove, syncGen := map[], map[], [], [], 0;
      tasks, nextTask := map[], 0;
      disposed, places, made, latest, missing, steps := multiset{}, [], [], [], {}, [];
    }

    /** Enters the step that was taken into the history. */
    ghost method Took(taken: seq<Step>)
      requires Run(taken) == Some(State())
      modifies this`steps
      ensures Valid() && steps == taken
    {
      steps := taken;
    }

    /** sync from layer `i` on, as task `id`: to its next await, or to its end. */
    method RunOn(id: nat, token: nat, layers: seq<Layer>, i: nat)
      requires Keyed() && i <= |layers|
      modifies this`images, this`gens, this`paintBelow, this`paintAbove, this`disposed, this`tasks, this`places
      ensures State() == Advance(old(State()), id, token, layers, i)
    {
      var at := FindMiss(layers, i);
      if at < |layers| {
        tasks := tasks[id := Task(token, layers, at, None)];
      } else {
        EndSync(id, layers);
      }
    }

    /** The end of sync, and of its task. */
    method EndSync(id: nat, layers: seq<Layer>)
      requires Keyed()
      modifies this`images, this`gens, this`paintBelow, this`paintAbove, this`disposed, this`tasks, this`places
      ensures State() == Finish(old(State()), id, layers)
    {
      ghost var was := State();
      places := ImageCache.Dispose(places, Unneeded(images, Needed(layers)));
      FinishSync(layers);
      tasks := tasks - {id};
      FinishIs(was, id, layers, State());
    }

    /** A new sync takes the next number and the next token. */
    method Issue(ghost layers: seq<Layer>) returns (id: nat)
      modifies this`syncGen, this`nextTask, this`latest, this`missing
      ensures State() == Issued(old(State()), layers) && id == old(nextTask)
    {
      latest, missing := layers, {};
      id := nextTask;
      syncGen := syncGen + 1;
      nextTask := nextTask + 1;
    }

    method Begin(layers: seq<Layer>)
      requires Keyed()
      modifies this`syncGen, this`nextTask, this`latest, this`missing
      modifies this`images, this`gens, this`paintBelow, this`paintAbove, this`disposed, this`tasks, this`places
      ensures State() == Start(old(State()), layers)
    {
      var id := Issue(layers);
      RunOn(id, syncGen, layers, 0);
    }

    /** sync up to its first await. */
    method Sync(layers: seq<Layer>)
      requires Valid()
      modifies this
      ensures Valid() && steps == old(steps) + [Step.Sync(layers)]
    {
      RunSnoc(steps, State(), Step.Sync(layers));
      KeyedInRun(steps, State());
      ghost var taken := steps + [Step.Sync(layers)];
      Begin(layers);
      Took(taken);
    }

    /** The decoder answers a suspended sync, with the image it made, if it made one. */
    method Answer(id: nat, image: Option<Image>)
      requires Valid() && Enabled(State(), Decode(id, image.Some?)) && (image.Some? ==> image.value == |places|)
      modifies this`tasks, this`places, this`made, this`steps
      ensures Valid() && steps == old(steps) + [Decode(id, image.Some?)]
    {
      RunSnoc(steps, State(), Decode(id, image.Some?));
      if image.Some? {
        places := places + [InFlight(id)];
        made := made + [tasks[id].layers[tasks[id].at]];
      }
      tasks := tasks[id := tasks[id].(answer := Some(image))];
      Took(steps + [Decode(id, image.Some?)]);
    }

    /** A superseded sync ends. */
    method GiveUp(id: nat, ghost image: Option<Image>)
      modifies this`tasks, this`places
      ensures tasks == old(tasks) - {id}
      ensures places == if image.Some? then ImageCache.Dispose(old(places), {image.value}) else old(places)
    {
      tasks := tasks - {id};
      places := if image.Some? then ImageCache.Dispose(places, {image.value}) else places;
    }

    /** The image of a sync that goes on is in the cache now. */
    method GoOn(ghost before: World, id: nat, task: Task)
      requires id in before.tasks && before.tasks[id] == task && task.at < |task.layers|
      modifies this`tasks, this`places, this`missing
      ensures task.answer == Some(None) ==>
        tasks == old(tasks) && places == old(places) && missing == old(missing) + {task.at}
      ensures task.answer.Some? && task.answer.value.Some? ==> missing == old(missing)
      ensures task.answer.Some? && task.answer.value.Some? ==>
        tasks == old(tasks)[id := task.(answer := None)] && places == Stored(before, id, task.answer.value.value).places
    {
      if task.answer.Some? && task.answer.value.Some? {
        tasks := tasks[id := task.(answer := None)];
        places := Stored(before, id, task.answer.value.value).places;
      } else {
        missing := missing + {task.at};
      }
    }

    /** sync just after its await: it takes the image and goes on, or is superseded and ends. */
    method TakeAnswer(id: nat, task: Task) returns (goOn: bool)
      requires Enabled(State(), Wake(id)) && tasks[id] == task && Keyed()
      requires task.answer.value.Some? ==> task.answer.value.value !in images.Values
      modifies this`images, this`gens, this`disposed, this`tasks, this`places, this`missing
      ensures Keyed() && goOn == (task.token == syncGen)
      ensures State() == if !goOn then GivenBack(old(State()), id, task.answer.value)
                         else if task.answer.value.Some? then Stored(old(State()), id, task.answer.value.value)
                         else Missing(old(State()), task.at)
    {
      ghost var before := State();
      goOn := TakeDecoded(task.token, task.layers[task.at], task.answer.value);
      if goOn {
        GoOn(before, id, task);
      } else {
        GiveUp(id, task.answer.value);
      }
    }

    /** sync from its await to the next one. */
    method Continue(id: nat)
      requires Enabled(State(), Wake(id)) && Keyed()
      requires tasks[id].answer.value.Some? ==> tasks[id].answer.value.value !in images.Values
      modifies this`images, this`gens, this`paintBelow, this`paintAbove, this`disposed, this`tasks, this`places
      modifies this`missing
      ensures State() == Resume(old(State()), id)
    {
      var task := tasks[id];
      var goOn := TakeAnswer(id, task);
      if goOn {
        RunOn(id, task.token, task.layers, task.at + 1);
      }
    }

    method Resumes(id: nat)
      requires Valid() && Enabled(State(), Wake(id))
      modifies this
      ensures Valid() && steps == old(steps) + [Wake(id)]
    {
      RunSnoc(steps, State(), Wake(id));
      KeyedInRun(steps, State());
      if tasks[id].answer.value.Some? {
        NewInRun(steps, State(), id, tasks[id].answer.value.value);
      }
      ghost var taken := steps + [Wake(id)];
      Continue(id);
      Took(taken);
    }

    /** The loop of sync from layer `i` on, to the next layer it has to decode. */
    method FindMiss(layers: seq<Layer>, i: nat) returns (at: nat)
      requires i <= |layers|
      ensures at == NextMiss(View(), layers, i)
    {
      at := i;
      while at < |layers|
        invariant i <= at <= |layers|
        invariant NextMiss(View(), layers, i) == NextMiss(View(), layers, at)
      {
        var layer := layers[at];
        var cachedGen := if KeyOf(layer) in gens then Some(gens[KeyOf(layer)]) else None;
        if cachedGen != Some(layer.generation) || KeyOf(layer) !in images {
          return;
        }
        at := at + 1;
      }
    }

    /** sync after its await: false if it was superseded, and gives the image back. */
    method TakeDecoded(token: nat, layer: Layer, image: Option<Image>) returns (goOn: bool)
      requires Keyed() && (image.Some? ==> image.value !in images.Values)
      modifies this`images, this`gens, this`disposed
      ensures Keyed()
      ensures goOn <==> token == old(syncGen)
      ensures View() == if goOn && image.Some? then StoreImage(old(View()), layer, image.value) else old(View())
      ensures disposed == old(disposed) + if image.None? then multiset{}
                                          else if goOn then Replaced(old(images), KeyOf(layer))
                                          else multiset{image.value}
    {
      if token != syncGen {
        if image.Some? {
          disposed := disposed + multiset{image.value};
        }
        return false;
      }
      if image.Some? {
        if KeyOf(layer) in images {
          disposed := disposed + multiset{images[KeyOf(layer)]};
        }
        images := images[KeyOf(layer) := image.value];
        gens := gens[KeyOf(layer) := layer.generation];
      }
      return true;
    }

    method CollectNeeded(layers: seq<Layer>) returns (needed: set<Key>)
      ensures needed == Needed(layers)
    {
      needed := {};
      for i := 0 to |layers|
        invariant needed == Needed(layers[..i])
      {
        needed := needed + {KeyOf(layers[i])};
        NeededSnoc(layers, i);
      }
      assert layers[..|layers|] == layers;
    }

    /** Dispose and forget one image. */
    method Drop(key: Key)
      requires key in images
      modifies this`images, this`gens, this`disposed
      ensures images == old(images) - {key} && gens == old(gens) - {key}
      ensures disposed == old(disposed) + multiset{old(images)[key]}
    {
      disposed := disposed + multiset{images[key]};
      images := images - {key};
      gens := gens - {key};
    }

    /** The body of the loop: one more image is gone. */
    method DropNext(
      ghost before: map<Key, Image>, ghost gensBefore: map<Key, int>, ghost gone: set<Key>,
      ghost start: multiset<Image>, k: Key)
      requires OneKeyEach(before) && k in images && k !in gone
      requires images == before - gone && gens == gensBefore - gone
      requires disposed == start + multiset(ImagesOf(before, gone))
      modifies this`images, this`gens, this`disposed
      ensures images == before - (gone + {k}) && gens == gensBefore - (gone + {k})
      ensures disposed == start + multiset(ImagesOf(before, gone + {k}))
    {
      Drop(k);
      DroppedToo(before, gone, k);
      DropTwice(before, gone, k);
      DropTwice(gensBefore, gone, k);
    }

    /** Dispose and forget some images, one at a time. */
    method DropAll(stale: set<Key>)
      requires OneKeyEach(images) && stale <= images.Keys
      modifies this`images, this`gens, this`disposed
      ensures images == old(images) - stale && gens == old(gens) - stale
      ensures disposed == old(disposed) + multiset(ImagesOf(old(images), stale))
    {
      ghost var before, gensBefore := images, gens;
      var rest := stale;
      ghost var gone: set<Key> := {};
      assert ImagesOf(before, gone) == {};
      while rest != {}
        invariant rest !! gone && rest + gone == stale
        invariant images == before - gone && gens == gensBefore - gone
        invariant disposed == old(disposed) + multiset(ImagesOf(before, gone))
        decreases |rest|
      {
        var k :| k in rest;
        DropNext(before, gensBefore, gone, old(disposed), k);
        rest := rest - {k};
        gone := gone + {k};
      }
      assert gone == stale;
    }

    method DropUnneeded(needed: set<Key>)
      requires Keyed()
      modifies this`images, this`gens, this`disposed
      ensures images == Keep(old(images), needed) && gens == Keep(old(gens), needed) && Keyed()
      ensures disposed == old(disposed) + multiset(Unneeded(old(images), needed))
    {
      var stale := set k | k in images && k !in needed;
      assert ImagesOf(images, stale) == Unneeded(images, needed);
      DropAll(stale);
      assert images == Keep(old(images), needed) && gens == Keep(old(gens), needed);
    }

    /** The visible, cached layers, on the two sides of the text. */
    method RebuildPaints(layers: seq<Layer>)
      modifies this`paintBelow, this`paintAbove
      ensures paintBelow == PaintSide(images, layers, true) && paintAbove == PaintSide(images, layers, false)
    {
      var below, above := [], [];
      for i := 0 to |layers|
        invariant below == PaintSide(images, layers[..i], true) && above == PaintSide(images, layers[..i], false)
      {
        var layer := layers[i];
        assert layers[..i + 1][..i] == layers[..i];
        if layer.visible && KeyOf(layer) in images {
          var entry := Paint(images[KeyOf(layer)], layer);
          if layer.z < 0 {
            below := below + [entry];
          } else {
            above := above + [entry];
          }
        }
      }
      assert layers[..|layers|] == layers;
      paintBelow, paintAbove := below, above;
    }

    /** The end of sync. */
    method FinishSync(layers: seq<Layer>)
      requires Keyed()
      modifies this`images, this`gens, this`paintBelow, this`paintAbove, this`disposed
      ensures Keyed() && View() == FinishCache(old(View()), layers)
      ensures disposed == old(disposed) + multiset(Unneeded(old(images), Needed(layers)))
    {
      var needed := CollectNeeded(layers);
      DropUnneeded(needed);
      RebuildPaints(layers);
    }

    /** Supersedes every sync and drops all images. */
    method Empty()
      requires Keyed()
      modifies this`syncGen, this`images, this`gens, this`paintBelow, this`paintAbove, this`disposed
      ensures View() == Cache(map[], map[], [], [], old(syncGen) + 1)
      ensures disposed == old(disposed) + multiset(Unneeded(old(images), {}))
    {
      syncGen := syncGen + 1;
      DropUnneeded({});
      assert images == map[] && gens == map[];
      paintBelow, paintAbove := [], [];
    }

    method Dispose()
      requires Valid()
      modifies this
      ensures Valid() && steps == old(steps) + [DisposeCache]
    {
      RunSnoc(steps, State(), DisposeCache);
      KeyedInRun(steps, State());
      ghost var taken := steps + [DisposeCache];
      DisposeImages();
      Took(taken);
    }

    method DisposeImages()
      requires Keyed()
      modifies this`syncGen, this`images, this`gens, this`paintBelow, this`paintAbove, this`disposed
      modifies this`places, this`latest, this`missing
      ensures State() == DisposeAll(old(State()))
    {
      places := ImageCache.Dispose(places, Unneeded(images, {}));
      latest, missing := [], {};
      Empty();
    }
  }

  lemma NeededSnoc(layers: seq<Layer>, i: nat)
    requires i < |layers|
    ensures Needed(layers[..i + 1]) == Needed(layers[..i]) + {KeyOf(layers[i])}
  {
    assert layers[..i + 1] == layers[..i] + [layers[i]];
    forall k | k in Needed(layers[..i]) + {KeyOf(layers[i])} ensures k in Needed(layers[..i + 1]) {
      if k in Needed(layers[..i]) {
        var j :| 0 <= j < i && KeyOf(layers[..i][j]) == k;
        assert KeyOf(layers[..i + 1][j]) == k;
      } else {
        assert KeyOf(layers[..i + 1][i]) == k;
      }
    }
  }
}
