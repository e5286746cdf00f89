/** The batch loaders' `remap`: aligning the records a batch query returned
    with the ids that were asked for. */
module DataloaderService {
  import opened Wrappers

  /** A loaded record with its numeric primary key. */
  datatype Keyed<T> = Keyed(id: int, obj: T)

  /** Reference definition: the position of the last record with `id`. */
  function LastIndexWithId<T>(objects: seq<Keyed<T>>, id: int): (r: Option<nat>)
    ensures r.Some? ==> r.value < |objects| && objects[r.value].id == id
    ensures r.Some? ==> forall j :: r.value < j < |objects| ==> objects[j].id != id
    ensures r.None? <==> forall j :: 0 <= j < |objects| ==> objects[j].id != id
  {
    if |objects| == 0 then None
    else if objects[|objects| - 1].id == id then Some(|objects| - 1)
    else LastIndexWithId(objects[..|objects| - 1], id)
  }

  /** `new Map(objects.map(obj => [obj.id, obj]))`: entries are set in
      order, so a later record with the same id overwrites an earlier one. */
  function BuildMap<T>(objects: seq<Keyed<T>>): (m: map<int, Keyed<T>>)
    ensures forall id :: id in m <==> LastIndexWithId(objects, id).Some?
    ensures forall id :: id in m ==> m[id] == objects[LastIndexWithId(objects, id).value]
  {
    if |objects| == 0 then map[]
    else
      var init := objects[..|objects| - 1];
      var last := objects[|objects| - 1];
      var m := BuildMap(init);
      assert forall id :: id != last.id ==> LastIndexWithId(objects, id) == LastIndexWithId(init, id);
      m[last.id := last]
  }

  /** `entityMap.get(id) || null`: a stored record is an object, hence truthy. */
  function Lookup<T>(m: map<int, Keyed<T>>, id: int): Option<Keyed<T>> {
    if id in m then Some(m[id]) else None
  }

  /** `remap`: one slot per requested id, in the order of `ids`. A slot holds
      the last record whose id is the requested one, or nothing when no
      record has it; so a record whose id was not asked for never appears. */
  function Remap<T>(ids: seq<int>, objects: seq<Keyed<T>>): (r: seq<Option<Keyed<T>>>)
    ensures |r| == |ids|
    ensures forall i :: 0 <= i < |ids| ==>
      (r[i].None? <==> forall j :: 0 <= j < |objects| ==> objects[j].id != ids[i])
    ensures forall i :: 0 <= i < |ids| && r[i].Some? ==>
      && r[i].value.id == ids[i]
      && LastIndexWithId(objects, ids[i]).Some?
      && r[i] == Some(objects[LastIndexWithId(objects, ids[i]).value])
  {
    var m := BuildMap(objects);
    seq(|ids|, i requires 0 <= i < |ids| => Lookup(m, ids[i]))
  }

  /** The output follows the order of `ids`: remapping a concatenation of
      id lists is concatenating the remapped lists. */
  lemma RemapConcat<T>(a: seq<int>, b: seq<int>, objects: seq<Keyed<T>>)
    ensures Remap(a + b, objects) == Remap(a, objects) + Remap(b, objects)
  {
    var l := Remap(a + b, objects);
    var r := Remap(a, objects) + Remap(b, objects);
    forall i | 0 <= i < |l|
      ensures l[i] == r[i]
    {
      if i < |a| {
        assert (a + b)[i] == a[i];
      } else {
        assert (a + b)[i] == b[i - |a|];
      }
    }
  }

  /** When the records have distinct ids, each record asked for comes back
      in every slot that asks for it. */
  lemma RemapFindsDistinctRecords<T>(ids: seq<int>, objects: seq<Keyed<T>>, i: int, j: int)
    requires forall x, y :: 0 <= x < y < |objects| ==> objects[x].id != objects[y].id
    requires 0 <= i < |ids| && 0 <= j < |objects| && objects[j].id == ids[i]
    ensures Remap(ids, objects)[i] == Some(objects[j])
  {
    var k := LastIndexWithId(objects, ids[i]);
    assert k.Some? && k.value == j;
  }
}
