/**
 * The reference-counted loading indicators of
 * frontend/src/posapp/composables/useLoading.js: every `start(id)` adds
 * one to the counter of `id`, every `stop(id)` takes one away, and an id
 * whose count drops to zero leaves the map. The overlay timers are not
 * part of this model.
 */
module UseLoading {
  /** The `loaders` map. */
  type Loaders = map<string, nat>

  /** Only live counters are stored. */
  predicate Valid(m: Loaders)
  {
    forall id :: id in m ==> m[id] >= 1
  }

  function Count(m: Loaders, id: string): nat
  {
    if id in m then m[id] else 0
  }

  /** `start`: one more running task for `id`. */
  function Start(m: Loaders, id: string): (r: Loaders)
    ensures Valid(m) ==> Valid(r)
    ensures Count(r, id) == Count(m, id) + 1
    ensures forall other :: other != id ==> Count(r, other) == Count(m, other)
    ensures r.Keys == m.Keys + {id}
  {
    m[id := Count(m, id) + 1]
  }

  /** `stop`: one fewer running task for `id`; the key goes when no task
      is left. */
  function Stop(m: Loaders, id: string): (r: Loaders)
    ensures Valid(m) ==> Valid(r)
    ensures Count(r, id) == if Count(m, id) == 0 then 0 else Count(m, id) - 1
    ensures id in r <==> Count(m, id) > 1
    ensures forall other :: other != id ==> Count(r, other) == Count(m, other) && (other in r <==> other in m)
  {
    var count := Count(m, id);
    if count <= 1 then m - {id} else m[id := count - 1]
  }

  /** `start` followed by `stop` on the same id restores the map. */
  lemma StartStopRestores(m: Loaders, id: string)
    requires Valid(m)
    ensures Stop(Start(m, id), id) == m
  {
    var r := Stop(Start(m, id), id);
    assert forall k :: k in r <==> k in m;
  }

  /** `withLoading` runs its callback between exactly one `start` and one
      `stop`, so around any callback the map is unchanged. */
  function WithLoading(m: Loaders, id: string): (r: Loaders)
    requires Valid(m)
    ensures r == m
  {
    StartStopRestores(m, id);
    Stop(Start(m, id), id)
  }

  /** `isLoading(id)`. */
  predicate IsLoading(m: Loaders, id: string)
  {
    id in m
  }

  /** `isAnyLoading`: some loader is running. */
  predicate IsAnyLoading(m: Loaders)
  {
    |m| > 0
  }

  lemma AnyLoadingIffSomeId(m: Loaders)
    ensures IsAnyLoading(m) <==> exists id :: IsLoading(m, id)
  {
    if |m| > 0 {
      var id :| id in m;
      assert IsLoading(m, id);
    }
  }

  /** While a task started and has not stopped, something is loading. */
  lemma StartedIsLoading(m: Loaders, id: string)
    ensures IsLoading(Start(m, id), id) && IsAnyLoading(Start(m, id))
  {
    assert id in Start(m, id).Keys;
  }
}
