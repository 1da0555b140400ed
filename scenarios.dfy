/**
 * Request sequences run against a store, as a client of the handlers sees
 * them: the create/get/delete walk-through of the service, and the way a
 * PUT whose body carries an `id` lets two records end up with the same id.
 */
module Scenarios {
  import opened Wrappers
  import opened Schema
  import opened Collection
  import opened Handlers

  /** The body of the walk-through: no `id`, every required key present. */
  function FidoBody(): (b: Body)
    ensures Valid(b)
  {
    Body(None, Some("Fido"), Some("perro"), Some("lab"), Some(3.0), Some("Ana"),
         Some("1234567890"), Some([]))
  }

  function Fido(id: int): Mascota {
    Mascota(id, "Fido", "perro", "lab", 3.0, "Ana", "1234567890", [])
  }

  /**
   * On an empty collection: two identical POSTs are given ids 1 and 2,
   * GET 1 returns the first, DELETE 1 succeeds, and GET 1 then answers 404.
   */
  method CreateGetDeleteWalkthrough() returns (outs: seq<Outcome>)
    ensures outs == [Created(Fido(1)), Created(Fido(2)), Ok(Fido(1)), NoContent, NotFound]
  {
    var store := new MascotaStore([]);
    var first := store.Create(FidoBody());
    var second := store.Create(FidoBody());
    assert store.data == [Fido(1), Fido(2)];
    var got := store.Get(Some(1));
    var deleted := store.Delete(Some(1));
    assert store.data == [Fido(2)];
    var gone := store.Get(Some(1));
    outs := [first, second, got, deleted, gone];
  }

  /** The same body under another name. */
  function RexBody(): (b: Body)
    ensures Valid(b)
  {
    FidoBody().(nombre := Some("Rex"))
  }

  function Rex(id: int): Mascota {
    Fido(id).(nombre := "Rex")
  }

  /**
   * PUT /mascotas/1 with a body carrying `id: 3` on the collection [1, 2]
   * leaves [3, 2], no longer ordered; the next POST is given 2 + 1 = 3, so
   * two different records now hold id 3 and GET 3 returns the updated one,
   * not the created one.
   */
  method BodyIdDuplicatesIds() returns (outs: seq<Outcome>, final: seq<Mascota>)
    ensures outs == [Ok(Fido(3)), Created(Rex(3)), Ok(Fido(3))]
    ensures final == [Fido(3), Fido(2), Rex(3)]
    ensures !Ordered(final) && !UniqueIds(final)
    ensures outs[2] == Ok(final[0]) && final[0] != final[2]
  {
    var store := new MascotaStore([Fido(1), Fido(2)]);
    var body := FidoBody().(id := Some(3.0));
    assert Valid(body);
    var updated := store.Update(Some(1), body);
    assert store.data == [Fido(3), Fido(2)];
    var created := store.Create(RexBody());
    assert store.data == [Fido(3), Fido(2), Rex(3)];
    var got := store.Get(Some(3));
    assert store.data[0].id == 3;
    assert got == Ok(Fido(3));
    outs := [updated, created, got];
    final := store.data;
    assert final[0].id > final[1].id && final[0].id == final[2].id;
  }
}
