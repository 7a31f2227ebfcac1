/** The "persona" record of the collection, as `response.json()` delivers each
    element of `data`: the store's reference, whose `['@ref'].id` is the
    identifier, and the record's own fields. */
module Personas {

  datatype Direccion = Direccion(calle: string, localidad: string, provincia: string, pais: string)

  /** The fields under `data`. `aniosParticipacionMundial` is an array (the
      conjunctive filter calls `.filter` on it); the others are strings, with
      `numeroParticipacionesOlimpicas` held as its decimal rendering. */
  datatype Datos = Datos(
    nombre: string,
    apellido: string,
    direccion: Direccion,
    aniosParticipacionMundial: seq<string>,
    numeroParticipacionesOlimpicas: string,
    tipo: string)

  /** One record: `id` stands for `ref['@ref'].id`, `data` for its fields. */
  datatype Persona = Persona(id: string, data: Datos)
}
