/**
 * The four id-based request handlers of index.js as methods of the store
 * whose `data` is the collection the persistence layer loads and saves.
 * Each handler receives the path id already passed through `parseInt`:
 * `None` stands for NaN.
 */
module Handlers {
  import opened Wrappers
  import opened Schema
  import opened Collection

  /** What a handler answers, without the HTTP plumbing. */
  datatype Outcome =
    | Ok(mascota: Mascota)       // 200 with the record
    | Created(mascota: Mascota)  // 201 with the created record
    | NoContent                  // 204
    | BadId                      // 400, the path id is not a number
    | Invalid                    // 400, the body fails the schema
    | NotFound                   // 404

  class MascotaStore {
    /** The collection as it stands in the backing file. */
    var data: seq<Mascota>

    constructor (initial: seq<Mascota>)
      ensures data == initial
    {
      data := initial;
    }

    /** GET /mascotas/:mascotaId */
    method Get(mascotaId: Option<int>) returns (out: Outcome)
      ensures mascotaId.None? ==> out == BadId
      ensures mascotaId.Some? ==>
                (out.Ok? <==> exists j :: 0 <= j < |data| && data[j].id == mascotaId.value)
      ensures mascotaId.Some? && !out.Ok? ==> out == NotFound
      ensures out.Ok? ==> out.mascota.id == mascotaId.value
      ensures out.Ok? ==> exists k :: 0 <= k < |data| && data[k] == out.mascota &&
                                      forall j :: 0 <= j < k ==> data[j].id != mascotaId.value
    {
      if mascotaId.None? {
        return BadId;
      }
      var mascota := Find(data, mascotaId.value);
      if mascota.Some? {
        out := Ok(mascota.value);
      } else {
        out := NotFound;
      }
    }

    /** POST /mascotas */
    method Create(body: Body) returns (out: Outcome)
      modifies this
      ensures !Valid(body) ==> out == Invalid && data == old(data)
      ensures Valid(body) ==>
                && out == Created(Stamp(body, NextId(old(data))))
                && data == old(data) + [out.mascota]
      ensures Ordered(old(data)) ==> Ordered(data)
    {
      if !Valid(body) {
        return Invalid;
      }
      var nueva := Stamp(body, NextId(data));
      if Ordered(data) {
        CreateKeepsOrder(data, body);
      }
      data := data + [nueva];
      out := Created(nueva);
    }

    /** PUT /mascotas/:mascotaId */
    method Update(mascotaId: Option<int>, body: Body) returns (out: Outcome)
      modifies this
      ensures mascotaId.None? ==> out == BadId && data == old(data)
      ensures mascotaId.Some? && !Valid(body) ==> out == Invalid && data == old(data)
      ensures mascotaId.Some? && Valid(body) && FindIndex(old(data), mascotaId.value).None? ==>
                out == NotFound && data == old(data)
      ensures mascotaId.Some? && Valid(body) && FindIndex(old(data), mascotaId.value).Some? ==>
                var k := FindIndex(old(data), mascotaId.value).value;
                && data == old(data)[k := Merge(old(data)[k], body)]
                && out == Ok(data[k])
                && data[k] == Stamp(body, MergedId(old(data)[k], body))
      ensures (&& Ordered(old(data))
               && (body.id.None? || (mascotaId.Some? && body.id.value == mascotaId.value as real)))
              ==> Ordered(data)
    {
      if mascotaId.None? {
        return BadId;
      }
      if !Valid(body) {
        return Invalid;
      }
      var index := FindIndex(data, mascotaId.value);
      if index.Some? {
        var k := index.value;
        MergeOfValidBody(data[k], body);
        if Ordered(data) && (body.id.None? || body.id.value == data[k].id as real) {
          UpdateKeepsOrder(data, k, body);
        }
        data := data[k := Merge(data[k], body)];
        out := Ok(data[k]);
      } else {
        out := NotFound;
      }
    }

    /** DELETE /mascotas/:mascotaId */
    method Delete(mascotaId: Option<int>) returns (out: Outcome)
      modifies this
      ensures mascotaId.None? ==> out == BadId && data == old(data)
      ensures mascotaId.Some? && FindIndex(old(data), mascotaId.value).None? ==>
                out == NotFound && data == old(data)
      ensures mascotaId.Some? && FindIndex(old(data), mascotaId.value).Some? ==>
                var k := FindIndex(old(data), mascotaId.value).value;
                && out == NoContent
                && |data| == |old(data)| - 1
                && (forall j :: 0 <= j < k ==> data[j] == old(data)[j])
                && (forall j :: k <= j < |data| ==> data[j] == old(data)[j + 1])
      ensures Ordered(old(data)) ==> Ordered(data)
      ensures Ordered(old(data)) && mascotaId.Some? ==>
                forall j :: 0 <= j < |data| ==> data[j].id != mascotaId.value
    {
      if mascotaId.None? {
        return BadId;
      }
      var index := FindIndex(data, mascotaId.value);
      if index.Some? {
        var k := index.value;
        if Ordered(data) {
          DeleteKeepsOrder(data, k);
          DeleteThenFind(data, mascotaId.value);
        }
        data := RemoveAt(data, k);
        out := NoContent;
      } else {
        out := NotFound;
      }
    }
  }
}
