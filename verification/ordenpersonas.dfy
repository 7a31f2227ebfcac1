/** The three alphabetic listings: by name, by a top-level field chosen by
    name, and by a field of the address. Each lower-cases the key with
    `toLowerCase` and hands the comparator to the host's stable sort; a key
    that is not a string makes the comparator throw, the rejection ends the
    retrieval and nothing is shown. */
module OrdenPersonas {
  import opened Wrappers
  import opened Cadenas
  import opened Personas
  import opened Orden

  /** The keys of the sorts. */
  function ClaveNombre(p: Persona): string { p.data.nombre }
  function ClaveApellido(p: Persona): string { p.data.apellido }
  function ClaveNumero(p: Persona): string { p.data.numeroParticipacionesOlimpicas }
  function ClaveTipo(p: Persona): string { p.data.tipo }
  function ClaveCalle(p: Persona): string { p.data.direccion.calle }
  function ClaveLocalidad(p: Persona): string { p.data.direccion.localidad }
  function ClaveProvincia(p: Persona): string { p.data.direccion.provincia }
  function ClavePais(p: Persona): string { p.data.direccion.pais }

  /** A sort of `v` by `clave`: a permutation of `v`, sorted case-insensitively,
      with each key's records in input order. */
  function OrdenaPor(v: seq<Persona>, clave: Persona -> string): (r: seq<Persona>)
    ensures multiset(r) == multiset(v)
    ensures Ordenada(r, clave)
    ensures forall c :: ConClave(r, clave, c) == ConClave(v, clave, c)
  {
    OrdenaPermuta(v, clave);
    OrdenaOrdenada(v, clave);
    OrdenaEstableTodas(v, clave);
    Ordena(v, clave)
  }

  /** The listing sorted by name. */
  function OrdenaPorNombre(v: seq<Persona>): (r: seq<Persona>)
    ensures multiset(r) == multiset(v)
    ensures Ordenada(r, ClaveNombre)
    ensures forall c :: ConClave(r, ClaveNombre, c) == ConClave(v, ClaveNombre, c)
  {
    OrdenaPor(v, ClaveNombre)
  }

  /** The top-level fields held as strings, so that `toLowerCase` applies.
      `direccion` is an object and `aniosParticipacionMundial` an array. */
  datatype CampoTexto = Nombre | Apellido | Numero | Tipo

  /** The property name of each string field. */
  function NombreCampo(c: CampoTexto): string
  {
    match c
    case Nombre => "nombre"
    case Apellido => "apellido"
    case Numero => "numeroParticipacionesOlimpicas"
    case Tipo => "tipo"
  }

  /** The field a property name designates, if it is a string field. */
  function CampoTextoDe(campo: string): (r: Option<CampoTexto>)
    ensures r.Some? ==> NombreCampo(r.value) == campo
    ensures forall c :: NombreCampo(c) == campo ==> r == Some(c)
  {
    if campo == "nombre" then Some(Nombre)
    else if campo == "apellido" then Some(Apellido)
    else if campo == "numeroParticipacionesOlimpicas" then Some(Numero)
    else if campo == "tipo" then Some(Tipo)
    else None
  }

  /** `a.data[campo]` for a string field. */
  function ClaveCampo(c: CampoTexto): Persona -> string
  {
    match c
    case Nombre => ClaveNombre
    case Apellido => ClaveApellido
    case Numero => ClaveNumero
    case Tipo => ClaveTipo
  }

  /** The listing sorted by the field named `campo`. With fewer than two
      records the comparator is never called and the records come back as
      they are; otherwise a name that is not a string field makes it throw and
      the result is `None`. */
  function OrdenaPorCampo(v: seq<Persona>, campo: string): (r: Option<seq<Persona>>)
    ensures r.None? <==> CampoTextoDe(campo).None? && |v| >= 2
    ensures r.Some? ==> multiset(r.value) == multiset(v)
    ensures forall c :: NombreCampo(c) == campo ==>
              r.Some? && Ordenada(r.value, ClaveCampo(c))
              && forall k :: ConClave(r.value, ClaveCampo(c), k) == ConClave(v, ClaveCampo(c), k)
    ensures CampoTextoDe(campo).None? && |v| < 2 ==> r == Some(v)
  {
    match CampoTextoDe(campo)
    case Some(c) => Some(OrdenaPor(v, ClaveCampo(c)))
    case None => if |v| < 2 then Some(v) else None
  }

  /** The fields of the address, all strings. */
  datatype CampoDireccion = Calle | Localidad | Provincia | Pais

  function NombreSubcampo(c: CampoDireccion): string
  {
    match c
    case Calle => "calle"
    case Localidad => "localidad"
    case Provincia => "provincia"
    case Pais => "pais"
  }

  /** The address field `a.data[campo][campo1]` designates, if any. */
  function CampoDireccionDe(campo: string, campo1: string): (r: Option<CampoDireccion>)
    ensures r.Some? ==> campo == "direccion" && NombreSubcampo(r.value) == campo1
    ensures campo == "direccion" ==> forall c :: NombreSubcampo(c) == campo1 ==> r == Some(c)
  {
    if campo != "direccion" then None
    else if campo1 == "calle" then Some(Calle)
    else if campo1 == "localidad" then Some(Localidad)
    else if campo1 == "provincia" then Some(Provincia)
    else if campo1 == "pais" then Some(Pais)
    else None
  }

  function ClaveDireccion(c: CampoDireccion): Persona -> string
  {
    match c
    case Calle => ClaveCalle
    case Localidad => ClaveLocalidad
    case Provincia => ClaveProvincia
    case Pais => ClavePais
  }

  /** The listing sorted by the address field `campo1` of `campo`. */
  function OrdenaPorSubcampo(v: seq<Persona>, campo: string, campo1: string): (r: Option<seq<Persona>>)
    ensures r.None? <==> CampoDireccionDe(campo, campo1).None? && |v| >= 2
    ensures r.Some? ==> multiset(r.value) == multiset(v)
    ensures forall c :: campo == "direccion" && NombreSubcampo(c) == campo1 ==>
              r.Some? && Ordenada(r.value, ClaveDireccion(c))
              && forall k :: ConClave(r.value, ClaveDireccion(c), k) == ConClave(v, ClaveDireccion(c), k)
    ensures CampoDireccionDe(campo, campo1).None? && |v| < 2 ==> r == Some(v)
  {
    match CampoDireccionDe(campo, campo1)
    case Some(c) => Some(OrdenaPor(v, ClaveDireccion(c)))
    case None => if |v| < 2 then Some(v) else None
  }

  /** A record whose identifier and name are both `nombre`, every other field
      being the same for all such records. */
  function ConNombre(nombre: string): Persona
  {
    Persona(nombre, Datos(nombre, "", Direccion("", "", "", ""), [], "0", ""))
  }

  /** The comparisons the example below needs. */
  lemma ComparaEjemplo()
    ensures Compara("juan", "María") == -1
    ensures Compara("Pedro", "juan") == 1
    ensures Compara("Pedro", "María") == 1
  {
    assert Minusculas("María")[0] == 'm';
    assert Minusculas("juan")[0] == 'j';
    assert Minusculas("Pedro")[0] == 'p';
  }

  /** "juan" is inserted in front of "María". */
  lemma OrdenaEjemploDos()
    ensures Ordena([ConNombre("María"), ConNombre("juan")], ClaveNombre)
         == [ConNombre("juan"), ConNombre("María")]
  {
    var m, j := ConNombre("María"), ConNombre("juan");
    ComparaEjemplo();
    assert [m, j][..1] == [m];
    assert Ordena([m], ClaveNombre) == [m];
    assert ClaveNombre(j) == "juan" && ClaveNombre(m) == "María";
  }

  /** "Pedro" is inserted behind "juan" and "María". */
  lemma InsertaEjemploTres()
    ensures Ordenada([ConNombre("juan"), ConNombre("María")], ClaveNombre)
    ensures Inserta(ConNombre("Pedro"), [ConNombre("juan"), ConNombre("María")], ClaveNombre)
         == [ConNombre("juan"), ConNombre("María"), ConNombre("Pedro")]
  {
    var m, j, p := ConNombre("María"), ConNombre("juan"), ConNombre("Pedro");
    ComparaEjemplo();
    assert ClaveNombre(p) == "Pedro" && ClaveNombre(m) == "María" && ClaveNombre(j) == "juan";
    assert [m][1..] == [] && [j, m][1..] == [m];
    assert Inserta(p, [m], ClaveNombre) == [m] + Inserta(p, [], ClaveNombre);
  }

  /** Sorting by name ignores case: "juan" goes before "María", and "María"
      before "Pedro". */
  lemma OrdenaPorNombreEjemplo()
    ensures OrdenaPorNombre([ConNombre("María"), ConNombre("juan"), ConNombre("Pedro")])
         == [ConNombre("juan"), ConNombre("María"), ConNombre("Pedro")]
  {
    var s := [ConNombre("María"), ConNombre("juan"), ConNombre("Pedro")];
    OrdenaEjemploDos();
    InsertaEjemploTres();
    assert s[..2] == [ConNombre("María"), ConNombre("juan")] && s[2] == ConNombre("Pedro");
    assert Ordena(s, ClaveNombre) == Inserta(s[2], Ordena(s[..2], ClaveNombre), ClaveNombre);
    assert OrdenaPorNombre(s) == Ordena(s, ClaveNombre);
  }
}
