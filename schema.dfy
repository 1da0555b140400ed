/**
 * The pet record ("mascota") and the Joi schema that every POST and PUT body
 * must satisfy (index.js, `mascotaSchema`).
 *
 * JSON numbers are modelled as `real` so that a fractional `edad` or `id`
 * can be written down and refused; JSON strings are `string`.
 */
module Schema {
  import opened Wrappers

  /**
   * A request body as the handlers receive it: each key may be absent.
   * `dueno` stands for the JSON key "dueño".
   */
  datatype Body = Body(
    id: Option<real>,
    nombre: Option<string>,
    especie: Option<string>,
    raza: Option<string>,
    edad: Option<real>,
    dueno: Option<string>,
    telefono: Option<string>,
    historial: Option<seq<string>>
  )

  /** A stored record: every key present, `id` an integer. */
  datatype Mascota = Mascota(
    id: int,
    nombre: string,
    especie: string,
    raza: string,
    edad: real,
    dueno: string,
    telefono: string,
    historial: seq<string>
  )

  /** The three species the schema admits. */
  const Especies: set<string> := {"perro", "gato", "otro"}

  /** `Joi.number().integer()`: a number with no fractional part. */
  predicate IsInteger(x: real) {
    x == x.Floor as real
  }

  /**
   * `Joi.string()`: Joi refuses the empty string unless told otherwise, so
   * every string the schema names, including each `historial` entry, is
   * non-empty.
   */
  predicate IsJoiString(s: string) {
    s != []
  }

  predicate IsDigit(c: char) {
    '0' <= c <= '9'
  }

  /** `/^[0-9]{10}$/`: exactly ten ASCII digits and nothing else. */
  predicate IsTelefono(s: string) {
    |s| == 10 && forall i :: 0 <= i < |s| ==> IsDigit(s[i])
  }

  /** The whole schema: `id` optional, every other key required. */
  predicate Valid(b: Body) {
    && (b.id.Some? ==> IsInteger(b.id.value) && b.id.value > 0.0)
    && b.nombre.Some? && IsJoiString(b.nombre.value)
    && b.especie.Some? && b.especie.value in Especies
    && b.raza.Some? && IsJoiString(b.raza.value)
    && b.edad.Some? && IsInteger(b.edad.value) && b.edad.value >= 0.0
    && b.dueno.Some? && IsJoiString(b.dueno.value)
    && b.telefono.Some? && IsTelefono(b.telefono.value)
    && b.historial.Some? && (forall i :: 0 <= i < |b.historial.value| ==> IsJoiString(b.historial.value[i]))
  }

  /** A stored record whose fields, read back as a body, pass the schema. */
  predicate WellFormed(m: Mascota) {
    && m.id > 0
    && IsJoiString(m.nombre)
    && m.especie in Especies
    && IsJoiString(m.raza)
    && IsInteger(m.edad) && m.edad >= 0.0
    && IsJoiString(m.dueno)
    && IsTelefono(m.telefono)
    && (forall i :: 0 <= i < |m.historial| ==> IsJoiString(m.historial[i]))
  }

  /**
   * The body object with its `id` key set to `id`, as POST does to
   * `req.body` before pushing it.
   */
  function Stamp(b: Body, id: int): (m: Mascota)
    requires Valid(b)
    ensures m.id == id
    ensures WellFormed(m) <==> id > 0
    ensures Some(m.nombre) == b.nombre && Some(m.especie) == b.especie && Some(m.raza) == b.raza
    ensures Some(m.edad) == b.edad && Some(m.dueno) == b.dueno
    ensures Some(m.telefono) == b.telefono && Some(m.historial) == b.historial
  {
    Mascota(id, b.nombre.value, b.especie.value, b.raza.value, b.edad.value,
            b.dueno.value, b.telefono.value, b.historial.value)
  }

  /**
   * The shallow merge `{...prev, ...body}` of PUT: a key present in the body
   * wins, an absent one keeps the stored value. A body `id` reaches this
   * point only after the schema accepted it as an integer.
   */
  function Merge(prev: Mascota, b: Body): Mascota {
    Mascota(
      MergedId(prev, b),
      b.nombre.GetOr(prev.nombre),
      b.especie.GetOr(prev.especie),
      b.raza.GetOr(prev.raza),
      b.edad.GetOr(prev.edad),
      b.dueno.GetOr(prev.dueno),
      b.telefono.GetOr(prev.telefono),
      b.historial.GetOr(prev.historial))
  }

  /** The id a merge leaves on the record: the body's if it has one. */
  function MergedId(prev: Mascota, b: Body): int {
    if b.id.Some? then b.id.value.Floor else prev.id
  }

  /**
   * Because the schema requires every key but `id`, merging a valid body
   * replaces the whole record by the body, keeping the old `id` only when
   * the body has none.
   */
  lemma MergeOfValidBody(prev: Mascota, b: Body)
    requires Valid(b)
    ensures Merge(prev, b) == Stamp(b, MergedId(prev, b))
    ensures b.id.None? ==> Merge(prev, b).id == prev.id
    ensures b.id.Some? ==> Merge(prev, b).id as real == b.id.value
  {
  }

  /** A record merged with a valid body passes the schema again. */
  lemma MergeKeepsWellFormed(prev: Mascota, b: Body)
    requires WellFormed(prev) && Valid(b)
    ensures WellFormed(Merge(prev, b))
  {
    MergeOfValidBody(prev, b);
  }

  /**
   * What the schema refuses: a missing required key, a species outside the
   * three, a telephone that is not ten digits, a negative or fractional age
   * or id, an id that is not positive, and an empty name, breed, owner or
   * history entry.
   */
  lemma ValidRefuses(b: Body)
    ensures (|| b.nombre.None? || b.especie.None? || b.raza.None? || b.edad.None?
             || b.dueno.None? || b.telefono.None? || b.historial.None?) ==> !Valid(b)
    ensures b.especie.Some? && b.especie.value !in Especies ==> !Valid(b)
    ensures b.telefono.Some? && |b.telefono.value| != 10 ==> !Valid(b)
    ensures b.telefono.Some? && (exists i :: 0 <= i < |b.telefono.value| && !IsDigit(b.telefono.value[i])) ==> !Valid(b)
    ensures b.edad.Some? && (b.edad.value < 0.0 || !IsInteger(b.edad.value)) ==> !Valid(b)
    ensures b.id.Some? && (b.id.value <= 0.0 || !IsInteger(b.id.value)) ==> !Valid(b)
    ensures b.nombre == Some("") || b.raza == Some("") || b.dueno == Some("") ==> !Valid(b)
    ensures b.historial.Some? && "" in b.historial.value ==> !Valid(b)
  {
  }
}
