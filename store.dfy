/**
 * The dataset store: a collection of datasets and the id of the active one,
 * changed by one action at a time. Ids that the store would draw from
 * `nanoid()` and timestamps from `new Date().toISOString()` are parameters.
 */
module Store {

  import opened Wrappers
  import opened Types
  import Scoring

  function DatasetId(d: Dataset): string { d.id }

  function ExampleId(e: TrainingExample): string { e.id }

  /** `xs.find((x) => key(x) === id) || null`: the first element carrying that id. */
  function Find<T>(xs: seq<T>, key: T -> string, id: string): (r: Option<T>)
    ensures r.None? <==> forall k | 0 <= k < |xs| :: key(xs[k]) != id
    ensures r.Some? ==> exists k | 0 <= k < |xs| ::
      xs[k] == r.value && key(xs[k]) == id && forall j | 0 <= j < k :: key(xs[j]) != id
  {
    if |xs| == 0 then None
    else if key(xs[0]) == id then Some(xs[0])
    else
      var r := Find(xs[1..], key, id);
      assert forall k | 1 <= k < |xs| :: xs[k] == xs[1..][k - 1];
      r
  }

  /** `xs.filter((x) => key(x) !== id)`: every element carrying that id removed. */
  function Without<T(==)>(xs: seq<T>, key: T -> string, id: string): (r: seq<T>)
    ensures forall k | 0 <= k < |r| :: r[k] in xs && key(r[k]) != id
    ensures forall k | 0 <= k < |xs| && key(xs[k]) != id :: xs[k] in r
    ensures |r| <= |xs|
    ensures (forall k | 0 <= k < |xs| :: key(xs[k]) != id) ==> r == xs
  {
    if |xs| == 0 then []
    else if key(xs[0]) == id then Without(xs[1..], key, id)
    else
      assert xs == [xs[0]] + xs[1..];
      [xs[0]] + Without(xs[1..], key, id)
  }

  /** `xs.map((x) => key(x) === id ? f(x) : x)`: the elements carrying that id rewritten by f. */
  function Where<T>(xs: seq<T>, key: T -> string, id: string, f: T -> T): (r: seq<T>)
    ensures |r| == |xs|
  {
    seq(|xs|, k requires 0 <= k < |xs| => if key(xs[k]) == id then f(xs[k]) else xs[k])
  }

  /** Filtering keeps the relative order: it distributes over concatenation. */
  lemma {:induction false} WithoutAppend<T>(a: seq<T>, b: seq<T>, key: T -> string, id: string)
    ensures Without(a + b, key, id) == Without(a, key, id) + Without(b, key, id)
  {
    if |a| == 0 {
      assert a + b == b;
    } else {
      assert (a + b)[1..] == a[1..] + b;
      WithoutAppend(a[1..], b, key, id);
    }
  }

  /** No two elements share an id. */
  ghost predicate UniqueIds<T>(xs: seq<T>, key: T -> string)
  {
    forall i, j | 0 <= i < j < |xs| :: key(xs[i]) != key(xs[j])
  }

  /** Appending an element whose id is new keeps ids unique. */
  lemma UniqueIdsSnoc<T>(xs: seq<T>, key: T -> string, x: T)
    requires UniqueIds(xs, key)
    requires forall k | 0 <= k < |xs| :: key(xs[k]) != key(x)
    ensures UniqueIds(xs + [x], key)
  {
  }

  /** Filtering never introduces a repeated id. */
  lemma {:induction false} UniqueIdsWithout<T>(xs: seq<T>, key: T -> string, id: string)
    requires UniqueIds(xs, key)
    ensures UniqueIds(Without(xs, key, id), key)
  {
    if |xs| > 0 {
      UniqueIdsWithout(xs[1..], key, id);
      var rest := Without(xs[1..], key, id);
      if key(xs[0]) != id {
        forall k | 0 <= k < |rest| ensures key(rest[k]) != key(xs[0]) {
          assert rest[k] in xs[1..];
          var m :| 0 <= m < |xs[1..]| && xs[1..][m] == rest[k];
          assert xs[m + 1] == rest[k];
        }
        var r := [xs[0]] + rest;
        forall i, j | 0 <= i < j < |r| ensures key(r[i]) != key(r[j]) {
          if i > 0 {
            assert r[i] == rest[i - 1] && r[j] == rest[j - 1];
          } else {
            assert r[j] == rest[j - 1];
          }
        }
      }
    }
  }

  /** A rewrite that keeps the id of what it rewrites keeps ids unique. */
  lemma UniqueIdsWhere<T>(xs: seq<T>, key: T -> string, id: string, f: T -> T)
    requires UniqueIds(xs, key)
    requires forall x | key(x) == id :: key(f(x)) == id
    ensures UniqueIds(Where(xs, key, id, f), key)
  {
    var r := Where(xs, key, id, f);
    assert forall k | 0 <= k < |xs| :: key(r[k]) == key(xs[k]);
  }

  /** With unique ids, looking an element up by its id finds that element. */
  lemma {:induction false} FindUnique<T>(xs: seq<T>, key: T -> string, k: nat)
    requires UniqueIds(xs, key)
    requires k < |xs|
    ensures Find(xs, key, key(xs[k])) == Some(xs[k])
  {
    var r := Find(xs, key, key(xs[k]));
    var m :| 0 <= m < |xs| && xs[m] == r.value && key(xs[m]) == key(xs[k])
      && forall j | 0 <= j < m :: key(xs[j]) != key(xs[k]);
    assert m == k;
  }

  /** `{ ...e, ...updates, updatedAt: now }`: the supplied fields replace the old ones. */
  function Merge(e: TrainingExample, updates: ExampleUpdate, now: string): (r: TrainingExample)
    ensures r.updatedAt == now
    ensures updates.id.None? ==> r.id == e.id
    ensures updates.id.Some? ==> r.id == updates.id.value
    ensures updates.messages.None? ==> r.messages == e.messages
    ensures updates.messages.Some? ==> r.messages == updates.messages.value
    ensures updates.tags.None? ==> r.tags == e.tags
    ensures updates.tags.Some? ==> r.tags == updates.tags.value
    ensures updates.score.None? ==> r.score == e.score
    ensures updates.score.Some? ==> r.score == updates.score.value
    ensures updates.createdAt.None? ==> r.createdAt == e.createdAt
    ensures updates.createdAt.Some? ==> r.createdAt == updates.createdAt.value
  {
    TrainingExample(
      updates.id.GetOr(e.id),
      updates.messages.GetOr(e.messages),
      updates.tags.GetOr(e.tags),
      updates.score.GetOr(e.score),
      updates.createdAt.GetOr(e.createdAt),
      now)
  }

  /** The `updatedAt` an update supplies is always overridden by the current time. */
  lemma MergeOverridesUpdatedAt(e: TrainingExample, stamp: string, now: string)
    requires stamp != now
    ensures Merge(e, ExampleUpdate(None, None, None, None, None, Some(stamp)), now).updatedAt != stamp
  {
  }

  /** Replacing the messages does not recompute the score. */
  lemma MergeKeepsStaleScore()
    ensures var e := TrainingExample("e1", [], [], 0, "t0", "t0");
            var ms := [Message("m1", Types.User, "hello")];
            var r := Merge(e, ExampleUpdate(None, Some(ms), None, None, None, None), "t1");
            r.messages == ms && r.score == 0 && r.score != Scoring.Score(ms)
  {
    var ms := [Message("m1", Types.User, "hello")];
    assert ms[0].role == Types.User;
    assert Scoring.HasRole(ms, Types.User);
  }

  /** The dataset with one more example at the end, stamped `now`. */
  function WithExampleAdded(d: Dataset, example: TrainingExample, now: string): (r: Dataset)
    ensures r.examples == d.examples + [example]
    ensures r.updatedAt == now
    ensures r.id == d.id && r.name == d.name && r.description == d.description
    ensures r.createdAt == d.createdAt
  {
    d.(examples := d.examples + [example], updatedAt := now)
  }

  /**
   * The dataset with the examples carrying `exampleId` merged with `updates`,
   * stamped `now` whether or not an example matched.
   */
  function WithExampleUpdated(d: Dataset, exampleId: string, updates: ExampleUpdate, now: string): (r: Dataset)
    ensures |r.examples| == |d.examples|
    ensures forall k | 0 <= k < |d.examples| ::
      r.examples[k] == if d.examples[k].id == exampleId then Merge(d.examples[k], updates, now) else d.examples[k]
    ensures r.updatedAt == now
    ensures r.id == d.id && r.name == d.name && r.description == d.description
    ensures r.createdAt == d.createdAt
  {
    d.(examples := Where(d.examples, ExampleId, exampleId, e => Merge(e, updates, now)), updatedAt := now)
  }

  /**
   * The dataset without the examples carrying `exampleId`, the others in their
   * order, stamped `now` whether or not an example was removed.
   */
  function WithoutExample(d: Dataset, exampleId: string, now: string): (r: Dataset)
    ensures forall e :: e in r.examples <==> e in d.examples && e.id != exampleId
    ensures r.examples == Without(d.examples, ExampleId, exampleId)
    ensures r.updatedAt == now
    ensures r.id == d.id && r.name == d.name && r.description == d.description
    ensures r.createdAt == d.createdAt
  {
    d.(examples := Without(d.examples, ExampleId, exampleId), updatedAt := now)
  }

  /** `useTrainerStore`: the store's state and its actions. */
  class TrainerStore {
    var datasets: seq<Dataset>
    var activeDatasetId: Option<string>

    /** Dataset ids are unique, and so are example ids within each dataset. */
    ghost predicate Valid()
      reads this
    {
      && UniqueIds(datasets, DatasetId)
      && forall k | 0 <= k < |datasets| :: UniqueIds(datasets[k].examples, ExampleId)
    }

    /** The initial state: no datasets and no active one. */
    constructor ()
      ensures datasets == [] && activeDatasetId == None
      ensures Valid()
    {
      datasets := [];
      activeDatasetId := None;
    }

    /** `getDatasetById`: the first dataset with that id, or null. */
    function GetDatasetById(id: string): (r: Option<Dataset>)
      reads this
      ensures r.None? <==> forall k | 0 <= k < |datasets| :: datasets[k].id != id
      ensures r.Some? ==> exists k | 0 <= k < |datasets| ::
        datasets[k] == r.value && datasets[k].id == id && forall j | 0 <= j < k :: datasets[j].id != id
      ensures Valid() ==> forall k | 0 <= k < |datasets| && datasets[k].id == id :: r == Some(datasets[k])
    {
      assert Valid() ==> forall k | 0 <= k < |datasets| && datasets[k].id == id ::
        Find(datasets, DatasetId, id) == Some(datasets[k]) by {
        if Valid() {
          forall k | 0 <= k < |datasets| && datasets[k].id == id
            ensures Find(datasets, DatasetId, id) == Some(datasets[k])
          {
            FindUnique(datasets, DatasetId, k);
          }
        }
      }
      Find(datasets, DatasetId, id)
    }

    /** `getActiveDataset`: the first dataset whose id is the active id, or null. */
    function GetActiveDataset(): (r: Option<Dataset>)
      reads this
      ensures activeDatasetId.None? ==> r.None?
      ensures activeDatasetId.Some? ==>
        (r.None? <==> forall k | 0 <= k < |datasets| :: datasets[k].id != activeDatasetId.value)
      ensures r.Some? ==> exists k | 0 <= k < |datasets| ::
        datasets[k] == r.value && Some(datasets[k].id) == activeDatasetId
        && forall j | 0 <= j < k :: Some(datasets[j].id) != activeDatasetId
      ensures Valid() ==> forall k | 0 <= k < |datasets| && Some(datasets[k].id) == activeDatasetId ::
        r == Some(datasets[k])
    {
      match activeDatasetId
      case None => None
      case Some(id) => GetDatasetById(id)
    }

    /**
     * `createDataset`: appends an empty dataset stamped `now` under the fresh
     * id, makes it active and returns its id.
     */
    method CreateDataset(id: string, now: string, name: string, description: string := "")
      returns (newId: string)
      requires forall k | 0 <= k < |datasets| :: datasets[k].id != id
      modifies this
      ensures newId == id
      ensures datasets == old(datasets) + [Dataset(id, name, description, [], now, now)]
      ensures activeDatasetId == Some(id)
      ensures GetDatasetById(id) == Some(Dataset(id, name, description, [], now, now))
      ensures GetActiveDataset() == Some(Dataset(id, name, description, [], now, now))
      ensures old(Valid()) ==> Valid()
    {
      var dataset := Dataset(id, name, description, [], now, now);
      ghost var before := datasets;
      datasets := datasets + [dataset];
      activeDatasetId := Some(id);
      newId := id;
      assert datasets[|before|] == dataset;
      if UniqueIds(before, DatasetId) {
        UniqueIdsSnoc(before, DatasetId, dataset);
      }
    }

    /**
     * `deleteDataset`: drops every dataset with that id, keeping the others in
     * order, and clears the active id exactly when it was that id.
     */
    method DeleteDataset(id: string)
      modifies this
      ensures datasets == Without(old(datasets), DatasetId, id)
      ensures forall d :: d in datasets <==> d in old(datasets) && d.id != id
      ensures activeDatasetId == if old(activeDatasetId) == Some(id) then None else old(activeDatasetId)
      ensures GetDatasetById(id).None?
      ensures old(activeDatasetId) == Some(id) ==> GetActiveDataset().None?
      ensures old(Valid()) ==> Valid()
    {
      ghost var before := datasets;
      datasets := Without(datasets, DatasetId, id);
      activeDatasetId := if activeDatasetId == Some(id) then None else activeDatasetId;
      if old(Valid()) {
        UniqueIdsWithout(before, DatasetId, id);
        forall k | 0 <= k < |datasets| ensures UniqueIds(datasets[k].examples, ExampleId) {
          assert datasets[k] in before;
        }
      }
    }

    /** `setActiveDataset`: overwrites the active id, with no existence check. */
    method SetActiveDataset(id: Option<string>)
      modifies this
      ensures activeDatasetId == id
      ensures datasets == old(datasets)
    {
      activeDatasetId := id;
    }

    /**
     * `addExample`: appends an example scored by `calculateScore` and stamped
     * `now` to each dataset with that id, refreshing its `updatedAt`; the
     * collection is unchanged when no dataset has that id.
     */
    method AddExample(datasetId: string, exampleId: string, now: string,
                      messages: seq<Message>, tags: seq<string> := [])
      requires forall k, j | 0 <= k < |datasets| && 0 <= j < |datasets[k].examples| ::
        datasets[k].examples[j].id != exampleId
      modifies this
      ensures |datasets| == |old(datasets)|
      ensures forall k | 0 <= k < |datasets| ::
        datasets[k] == if old(datasets)[k].id == datasetId
          then WithExampleAdded(old(datasets)[k],
                 TrainingExample(exampleId, messages, tags, Scoring.Score(messages), now, now), now)
          else old(datasets)[k]
      ensures (forall k | 0 <= k < |old(datasets)| :: old(datasets)[k].id != datasetId) ==> datasets == old(datasets)
      ensures activeDatasetId == old(activeDatasetId)
      ensures old(Valid()) ==> Valid()
    {
      var score := Scoring.CalculateScore(messages);
      var example := TrainingExample(exampleId, messages, tags, score, now, now);
      ghost var before := datasets;
      datasets := Where(datasets, DatasetId, datasetId, d => WithExampleAdded(d, example, now));
      forall k | 0 <= k < |datasets|
        ensures datasets[k] == if before[k].id == datasetId then WithExampleAdded(before[k], example, now) else before[k]
      {
        assert DatasetId(before[k]) == before[k].id;
      }
      if old(Valid()) {
        UniqueIdsWhere(before, DatasetId, datasetId, d => WithExampleAdded(d, example, now));
        forall k | 0 <= k < |datasets| ensures UniqueIds(datasets[k].examples, ExampleId) {
          if before[k].id == datasetId {
            UniqueIdsSnoc(before[k].examples, ExampleId, example);
          }
        }
      }
    }

    /**
     * `updateExample`: in each dataset with that id, merges `updates` into the
     * examples with that example id (their `updatedAt` becomes `now` and their
     * score is not recomputed) and refreshes the dataset's `updatedAt`, even when
     * no example matched.
     */
    method UpdateExample(datasetId: string, exampleId: string, updates: ExampleUpdate, now: string)
      modifies this
      ensures |datasets| == |old(datasets)|
      ensures forall k | 0 <= k < |datasets| ::
        datasets[k] == if old(datasets)[k].id == datasetId
          then WithExampleUpdated(old(datasets)[k], exampleId, updates, now)
          else old(datasets)[k]
      ensures activeDatasetId == old(activeDatasetId)
      ensures old(Valid()) && updates.id.None? ==> Valid()
    {
      ghost var before := datasets;
      datasets := Where(datasets, DatasetId, datasetId, d => WithExampleUpdated(d, exampleId, updates, now));
      forall k | 0 <= k < |datasets|
        ensures datasets[k] == if before[k].id == datasetId then WithExampleUpdated(before[k], exampleId, updates, now) else before[k]
      {
        assert DatasetId(before[k]) == before[k].id;
      }
      if old(Valid()) && updates.id.None? {
        UniqueIdsWhere(before, DatasetId, datasetId, d => WithExampleUpdated(d, exampleId, updates, now));
        forall k | 0 <= k < |datasets| ensures UniqueIds(datasets[k].examples, ExampleId) {
          if before[k].id == datasetId {
            UniqueIdsWhere(before[k].examples, ExampleId, exampleId, e => Merge(e, updates, now));
          }
        }
      }
    }

    /**
     * `deleteExample`: in each dataset with that id, drops every example with
     * that example id, keeping the others in order, and refreshes the dataset's
     * `updatedAt`, even when nothing was removed.
     */
    method DeleteExample(datasetId: string, exampleId: string, now: string)
      modifies this
      ensures |datasets| == |old(datasets)|
      ensures forall k | 0 <= k < |datasets| ::
        datasets[k] == if old(datasets)[k].id == datasetId
          then WithoutExample(old(datasets)[k], exampleId, now)
          else old(datasets)[k]
      ensures activeDatasetId == old(activeDatasetId)
      ensures old(Valid()) ==> Valid()
    {
      ghost var before := datasets;
      datasets := Where(datasets, DatasetId, datasetId, d => WithoutExample(d, exampleId, now));
      forall k | 0 <= k < |datasets|
        ensures datasets[k] == if before[k].id == datasetId then WithoutExample(before[k], exampleId, now) else before[k]
      {
        assert DatasetId(before[k]) == before[k].id;
      }
      if old(Valid()) {
        UniqueIdsWhere(before, DatasetId, datasetId, d => WithoutExample(d, exampleId, now));
        forall k | 0 <= k < |datasets| ensures UniqueIds(datasets[k].examples, ExampleId) {
          if before[k].id == datasetId {
            UniqueIdsWithout(before[k].examples, ExampleId, exampleId);
          }
        }
      }
    }
  }
}
