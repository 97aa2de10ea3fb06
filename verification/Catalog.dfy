/** The model catalog: merging, validation, duplicate detection and lookup (`catalog.py`).
    Field validation itself is a parameter: it turns a merged entry into a spec or refuses it. */
module Catalogs {
  import opened Prelude

  type ModelId = string

  datatype RawSpec = RawSpec(id: ModelId, backend: string, modelRef: string, estimate: nat)

  /** `id`, `backend` and `model_ref` are validated to be non-empty, the estimate to be >= 0. */
  type ModelSpec = s: RawSpec | s.id != "" && s.backend != "" && s.modelRef != ""
    witness RawSpec("m", "b", "r", 0)

  datatype RawCatalog = RawCatalog(specs: seq<ModelSpec>, byId: map<ModelId, ModelSpec>) {
    function Get(id: ModelId): Option<ModelSpec> {
      if id in byId then Some(byId[id]) else None
    }
  }

  type Catalog = c: RawCatalog | forall id :: id in c.byId ==> c.byId[id].id == id
    witness RawCatalog([], map[])

  /** `{spec.id: spec for spec in specs}`: a later spec replaces an earlier one of the same id. */
  function Index(specs: seq<ModelSpec>): (m: map<ModelId, ModelSpec>)
    ensures forall id :: id in m <==> exists i :: 0 <= i < |specs| && specs[i].id == id
    ensures forall id :: id in m ==> m[id].id == id
  {
    if specs == [] then map[]
    else
      var n := |specs| - 1;
      assert specs == specs[..n] + [specs[n]];
      Index(specs[..n])[specs[n].id := specs[n]]
  }

  /** With distinct ids, looking an id up finds the one spec that carries it. */
  lemma {:induction false} IndexAgreesWithList(specs: seq<ModelSpec>, i: nat)
    requires i < |specs| && Distinct(Ids(specs))
    ensures specs[i].id in Index(specs) && Index(specs)[specs[i].id] == specs[i]
  {
    var n := |specs| - 1;
    if i < n {
      assert Ids(specs)[i] != Ids(specs)[n];
      assert Ids(specs[..n]) == Ids(specs)[..n];
      IndexAgreesWithList(specs[..n], i);
    }
  }

  function Ids(specs: seq<ModelSpec>): (ids: seq<ModelId>)
    ensures |ids| == |specs|
    ensures forall i :: 0 <= i < |specs| ==> ids[i] == specs[i].id
  {
    seq(|specs|, i requires 0 <= i < |specs| => specs[i].id)
  }

  ghost predicate Distinct(ids: seq<ModelId>) {
    forall i, j :: 0 <= i < j < |ids| ==> ids[i] != ids[j]
  }

  ghost predicate OccursTwice(ids: seq<ModelId>, id: ModelId) {
    exists i, j :: 0 <= i < j < |ids| && ids[i] == id && ids[j] == id
  }

  /** Exactly the ids that occur at least twice, so it is empty exactly when all are distinct. */
  method Duplicates(ids: seq<ModelId>) returns (dupes: set<ModelId>)
    ensures forall id :: id in dupes <==> OccursTwice(ids, id)
    ensures dupes == {} <==> Distinct(ids)
  {
    var seen: set<ModelId> := {};
    dupes := {};
    for k := 0 to |ids|
      invariant forall id :: id in seen <==> id in ids[..k]
      invariant forall id :: id in dupes <==> OccursTwice(ids[..k], id)
    {
      var value := ids[k];
      ghost var before, after := ids[..k], ids[..k + 1];
      assert after == before + [value];
      forall id
        ensures OccursTwice(after, id) <==> OccursTwice(before, id) || (id == value && value in seen)
      {
        OccursTwiceAfter(before, value, id);
      }
      if value in seen {
        dupes := dupes + {value};
      }
      seen := seen + {value};
    }
    assert ids[..|ids|] == ids;
    assert forall i, j :: 0 <= i < j < |ids| && ids[i] == ids[j] ==> OccursTwice(ids, ids[i]);
    assert dupes != {} ==> exists id :: id in dupes && OccursTwice(ids, id);
  }

  lemma OccursTwiceAfter(ids: seq<ModelId>, value: ModelId, id: ModelId)
    ensures OccursTwice(ids + [value], id) <==> OccursTwice(ids, id) || (id == value && value in ids)
  {
    var more := ids + [value];
    if OccursTwice(ids, id) {
      var i, j :| 0 <= i < j < |ids| && ids[i] == id && ids[j] == id;
      assert more[i] == id && more[j] == id;
    }
    if id == value && value in ids {
      var i :| 0 <= i < |ids| && ids[i] == value;
      assert more[i] == id && more[|ids|] == id;
    }
  }

  datatype LoadResult =
    | Loaded(catalog: Catalog)
    | NoModels
    | InvalidEntry(index: nat)
    | DuplicateIds(ids: set<ModelId>)

  /** A catalog comes out exactly when every merged entry is valid and all ids differ; it then
      has one spec per entry, in file order, and lookup agrees with that list. */
  method LoadCatalog<V>(defaults: map<string, V>, models: seq<map<string, V>>,
                        validate: map<string, V> -> Option<ModelSpec>)
    returns (r: LoadResult)
    ensures r.NoModels? <==> models == []
    ensures r.InvalidEntry? ==>
              && r.index < |models| && validate(defaults + models[r.index]).None?
              && forall i :: 0 <= i < r.index ==> validate(defaults + models[i]).Some?
    ensures r.DuplicateIds? || r.Loaded? ==>
              forall i :: 0 <= i < |models| ==> validate(defaults + models[i]).Some?
    ensures r.DuplicateIds? ==>
              && r.ids != {}
              && forall id :: id in r.ids <==>
                                exists i, j :: 0 <= i < j < |models| && id == validate(defaults + models[i]).value.id
                                               && id == validate(defaults + models[j]).value.id
    ensures r.Loaded? ==>
              var c := r.catalog;
              && |c.specs| == |models|
              && (forall i :: 0 <= i < |models| ==> c.specs[i] == validate(defaults + models[i]).value)
              && Distinct(Ids(c.specs))
              && (forall i :: 0 <= i < |models| ==> c.Get(c.specs[i].id) == Some(c.specs[i]))
              && (forall id :: c.Get(id).Some? ==> id in Ids(c.specs))
  {
    if models == [] {
      return NoModels;
    }
    var specs: seq<ModelSpec> := [];
    for k := 0 to |models|
      invariant |specs| == k
      invariant forall i :: 0 <= i < k ==> validate(defaults + models[i]) == Some(specs[i])
    {
      var merged := defaults + models[k];
      match validate(merged) {
        case None => return InvalidEntry(k);
        case Some(spec) => specs := specs + [spec];
      }
    }
    var dupes := Duplicates(Ids(specs));
    if dupes != {} {
      forall id
        ensures id in dupes <==>
                  exists i, j :: 0 <= i < j < |models| && id == validate(defaults + models[i]).value.id
                                 && id == validate(defaults + models[j]).value.id
      {
        TwiceAmongEntries(defaults, models, validate, specs, id);
      }
      return DuplicateIds(dupes);
    }
    forall i | 0 <= i < |specs|
      ensures specs[i].id in Index(specs) && Index(specs)[specs[i].id] == specs[i]
    {
      IndexAgreesWithList(specs, i);
    }
    forall id | id in Index(specs)
      ensures id in Ids(specs)
    {
      KeyIsListed(specs, id);
    }
    return Loaded(RawCatalog(specs, Index(specs)));
  }

  lemma TwiceAmongEntries<V>(defaults: map<string, V>, models: seq<map<string, V>>,
                             validate: map<string, V> -> Option<ModelSpec>, specs: seq<ModelSpec>, id: ModelId)
    requires |specs| == |models| && forall i :: 0 <= i < |models| ==> validate(defaults + models[i]) == Some(specs[i])
    ensures OccursTwice(Ids(specs), id) <==>
            exists i, j :: 0 <= i < j < |models| && id == validate(defaults + models[i]).value.id
                           && id == validate(defaults + models[j]).value.id
  {
    if OccursTwice(Ids(specs), id) {
      var i, j :| 0 <= i < j < |specs| && Ids(specs)[i] == id && Ids(specs)[j] == id;
      assert validate(defaults + models[i]).value == specs[i] && validate(defaults + models[j]).value == specs[j];
    }
  }

  lemma KeyIsListed(specs: seq<ModelSpec>, id: ModelId)
    requires id in Index(specs)
    ensures id in Ids(specs)
  {
    var i :| 0 <= i < |specs| && specs[i].id == id;
    assert Ids(specs)[i] == id;
  }
}
