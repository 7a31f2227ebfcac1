/** The table renderer: the two headers, the two row shapes, the footer, and
    the three displays that assemble them and hand the markup to the content
    region (`Frontend.Article.actualizar(titulo, contenido)`). */
module Tabla {
  import opened Personas
  import opened Cadenas

  /** What the content region receives: a title and the markup to show. */
  datatype Articulo = Articulo(titulo: string, contenido: string)

  /** Header of the full listing: seven columns. */
  const CabeceraCompleta: string :=
    "<table class=\"listado-personas\">\n        <thead>\n        "
    + "<th>ID</th><th>Nombre</th><th>Apellidos</th><th>Dirección</th><th>Años participación</th>"
    + "<th>Número participaciones</th><th>Tipo</th> \n        </thead>\n        <tbody>\n    "

  /** Header of the names-only listing: three columns. */
  const CabeceraDeNombres: string :=
    "<table class=\"listado-personas\"><thead><th>ID</th><th>Nombre</th><th>Apellidos</th></thead><tbody>"

  /** Footer shared by both listings. */
  const Pie: string := "</tbody></table>"

  function CabeceraTable(): string { CabeceraCompleta }

  function CabeceraTableNombres(): string { CabeceraDeNombres }

  function PieTable(): string { Pie }

  /** The address cell: `calle,localidad,provincia,pais`. */
  function DireccionTexto(d: Direccion): string
  {
    d.calle + "," + d.localidad + "," + d.provincia + "," + d.pais
  }

  // The literal text between the substitutions of the two row templates.
  const TrasTitulo := "\">\n    <td>"
  const Separador := "</td>\n    <td>"
  const SeparadorConEspacio := "</td>\n    <td> "
  const FinDeFila := "</td>\n    </tr>"

  /** The full row, character for character as the template literal writes it:
      each cell on its own line, indented by four spaces. An array in `${}` is
      joined with commas. The concatenation is grouped to the right, which does
      not change the string. */
  function CuerpoTr(p: Persona): string
  {
    var d := p.data;
    AbreFila + (p.id + (TrasTitulo + (p.id + (Separador + (d.nombre
    + (SeparadorConEspacio + (d.apellido + (Separador + (DireccionTexto(d.direccion)
    + (Separador + (Une(d.aniosParticipacionMundial, ",")
    + (Separador + (d.numeroParticipacionesOlimpicas + (Separador + (d.tipo
    + FinDeFila)))))))))))))))
  }

  /** The names-only row, as its template literal writes it. */
  function CuerpoTrNombres(p: Persona): string
  {
    AbreFila + (p.id + (TrasTitulo + (p.id + (Separador + (p.data.nombre
    + (SeparadorConEspacio + (p.data.apellido + FinDeFila)))))))
  }

  // The pieces both row templates are made of.
  const AbreFila := "<tr title=\""
  const CierraTitulo := "\">"
  const AbreCelda := "\n    <td>"
  const CierraCelda := "</td>"
  const CierraFila := "\n    </tr>"

  /** A run of cells, each on its own indented line, followed by the end of the row. */
  function Celdas(cs: seq<string>): string
  {
    if cs == [] then CierraFila else AbreCelda + (cs[0] + (CierraCelda + Celdas(cs[1..])))
  }

  /** A row with a title attribute and the given cells, in the layout both templates use. */
  function Fila(titulo: string, cs: seq<string>): string
  {
    AbreFila + (titulo + (CierraTitulo + Celdas(cs)))
  }

  /** The seven cells of the full row, in column order. */
  function CeldasCompletas(p: Persona): seq<string>
  {
    [p.id, p.data.nombre, " " + p.data.apellido, DireccionTexto(p.data.direccion),
     Une(p.data.aniosParticipacionMundial, ","), p.data.numeroParticipacionesOlimpicas, p.data.tipo]
  }

  /** The three cells of the names-only row; no other field of the record is read. */
  function CeldasNombres(p: Persona): seq<string>
  {
    [p.id, p.data.nombre, " " + p.data.apellido]
  }

  /** Splitting a run of cells into its first cell and the rest. */
  lemma CeldasCabeza(c: string, cs: seq<string>)
    ensures Celdas([c] + cs) == AbreCelda + (c + (CierraCelda + Celdas(cs)))
  {
    assert ([c] + cs)[1..] == cs;
  }

  // The literal pieces between two substitutions are row pieces run together.
  lemma EntreTituloYCelda(x: string)
    ensures TrasTitulo + x == CierraTitulo + (AbreCelda + x)
  {
  }

  lemma EntreCeldas(x: string)
    ensures Separador + x == CierraCelda + (AbreCelda + x)
  {
  }

  lemma EntreCeldasConEspacio(x: string, y: string)
    ensures SeparadorConEspacio + (x + y) == CierraCelda + (AbreCelda + ((" " + x) + y))
  {
  }

  lemma TrasUltimaCelda()
    ensures FinDeFila == CierraCelda + Celdas([])
  {
  }

  /** A separator, a cell and what follows it are the end of a cell and a run
      of cells starting with that one. */
  lemma PasoCelda(c: string, cs: seq<string>)
    ensures Separador + (c + (CierraCelda + Celdas(cs))) == CierraCelda + Celdas([c] + cs)
  {
    CeldasCabeza(c, cs);
    EntreCeldas(c + (CierraCelda + Celdas(cs)));
  }

  /** The last four cells of the full row: address, years, number, type. */
  lemma ColaCuerpoTr(d: Datos)
    ensures Separador + (DireccionTexto(d.direccion) + (Separador + (Une(d.aniosParticipacionMundial, ",")
            + (Separador + (d.numeroParticipacionesOlimpicas + (Separador + (d.tipo + FinDeFila)))))))
         == CierraCelda + Celdas([DireccionTexto(d.direccion), Une(d.aniosParticipacionMundial, ","),
                                  d.numeroParticipacionesOlimpicas, d.tipo])
  {
    var dir, an := DireccionTexto(d.direccion), Une(d.aniosParticipacionMundial, ",");
    TrasUltimaCelda();
    PasoCelda(d.tipo, []);
    PasoCelda(d.numeroParticipacionesOlimpicas, [d.tipo]);
    PasoCelda(an, [d.numeroParticipacionesOlimpicas, d.tipo]);
    PasoCelda(dir, [an, d.numeroParticipacionesOlimpicas, d.tipo]);
  }

  /** The full row is the record's identifier as title followed by its seven cells. */
  lemma CuerpoTrEsFila(p: Persona)
    ensures CuerpoTr(p) == Fila(p.id, CeldasCompletas(p))
    ensures |CeldasCompletas(p)| == 7
  {
    var d := p.data;
    var cola := [DireccionTexto(d.direccion), Une(d.aniosParticipacionMundial, ","),
                 d.numeroParticipacionesOlimpicas, d.tipo];
    ColaCuerpoTr(d);
    var e3 := CierraCelda + Celdas(cola);
    EntreCeldasConEspacio(d.apellido, e3);
    CeldasCabeza(" " + d.apellido, cola);
    PasoCelda(d.nombre, [" " + d.apellido] + cola);
    CeldasCabeza(p.id, [d.nombre, " " + d.apellido] + cola);
    EntreTituloYCelda(p.id + (CierraCelda + Celdas([d.nombre, " " + d.apellido] + cola)));
    assert CeldasCompletas(p) == [p.id] + ([d.nombre, " " + d.apellido] + cola);
  }

  /** The names-only row is the identifier as title followed by its three cells. */
  lemma CuerpoTrNombresEsFila(p: Persona)
    ensures CuerpoTrNombres(p) == Fila(p.id, CeldasNombres(p))
  {
    var cs := CeldasNombres(p);
    TrasUltimaCelda();
    var e2 := p.data.apellido + FinDeFila;
    CeldasCabeza(cs[2], []);
    assert cs[2..] == [cs[2]] + [];
    var e1 := p.data.nombre + (SeparadorConEspacio + e2);
    EntreCeldasConEspacio(p.data.apellido, FinDeFila);
    CeldasCabeza(cs[1], cs[2..]);
    assert cs[1..] == [cs[1]] + cs[2..];
    var e0 := p.id + (Separador + e1);
    EntreCeldas(e1);
    CeldasCabeza(cs[0], cs[1..]);
    assert cs == [cs[0]] + cs[1..];
    EntreTituloYCelda(e0);
  }

  /** `v.map(fila)`. */
  function Filas(v: seq<Persona>, fila: Persona -> string): (r: seq<string>)
    ensures |r| == |v|
  {
    seq(|v|, i requires 0 <= i < |v| => fila(v[i]))
  }

  /** The strings of `ss` one after another, as the `forEach` of the listings
      appends them. It is `Une(ss, "")` (see `ConcatenaEsUne`), kept separate
      because its one-step unfolding is what the listing proofs peel rows off. */
  function Concatena(ss: seq<string>): string
  {
    if ss == [] then "" else ss[0] + Concatena(ss[1..])
  }

  /** Appending the rows one by one is joining them with the empty separator. */
  lemma {:induction false} ConcatenaEsUne(ss: seq<string>)
    ensures Concatena(ss) == Une(ss, "")
  {
    if |ss| == 1 {
      assert Concatena(ss[1..]) == "";
    } else if |ss| > 1 {
      ConcatenaEsUne(ss[1..]);
      assert Une(ss, "") == ss[0] + "" + Une(ss[1..], "");
    }
  }

  lemma {:induction false} ConcatenaConcatena(a: seq<string>, b: seq<string>)
    ensures Concatena(a + b) == Concatena(a) + Concatena(b)
  {
    if a == [] {
      assert a + b == b;
    } else {
      assert (a + b)[1..] == a[1..] + b;
      ConcatenaConcatena(a[1..], b);
    }
  }

  /** `vector.forEach(e => msj += fila(e))`, starting from `msj`: the rows of
      the records in order, appended to what was already there. */
  function Acumula(msj: string, v: seq<Persona>, fila: Persona -> string): (r: string)
    ensures r == msj + Concatena(Filas(v, fila))
    decreases |v|
  {
    if v == [] then msj
    else
      assert Filas(v, fila) == [fila(v[0])] + Filas(v[1..], fila);
      Acumula(msj + fila(v[0]), v[1..], fila)
  }

  /** The full listing: the seven-column header, one full row per record in
      order, and the footer; an empty collection gives the header followed by
      the footer. */
  function Imprime(v: seq<Persona>): (a: Articulo)
    ensures a.titulo == "Listado de personas"
    ensures a.contenido == CabeceraTable() + Concatena(Filas(v, CuerpoTr)) + PieTable()
    ensures v == [] ==> a.contenido == CabeceraTable() + PieTable()
  {
    Articulo("Listado de personas", Acumula(CabeceraTable(), v, CuerpoTr) + PieTable())
  }

  /** The names-only listing: the three-column header, one names-only row per
      record in order, and the footer. */
  function ImprimeNombres(v: seq<Persona>): (a: Articulo)
    ensures a.titulo == "Listado de nombre de personas"
    ensures a.contenido == CabeceraTableNombres() + Concatena(Filas(v, CuerpoTrNombres)) + PieTable()
    ensures v == [] ==> a.contenido == CabeceraTableNombres() + PieTable()
  {
    Articulo("Listado de nombre de personas", Acumula(CabeceraTableNombres(), v, CuerpoTrNombres) + PieTable())
  }

  /** The rows of a single record are that record's row. */
  lemma FilasDeUno(p: Persona, fila: Persona -> string)
    ensures Concatena(Filas([p], fila)) == fila(p)
  {
    assert Filas([p], fila) == [fila(p)];
    assert Concatena([fila(p)]) == fila(p) + Concatena([]);
  }

  /** Showing one record gives the same markup as the full listing of that record alone. */
  function ImprimeMostrar(p: Persona): (a: Articulo)
    ensures a.titulo == "Persona mostrada"
    ensures a.contenido == Imprime([p]).contenido
  {
    var msj := CabeceraTable() + CuerpoTr(p);
    FilasDeUno(p, CuerpoTr);
    Articulo("Persona mostrada", msj + PieTable())
  }

  /** `map` distributes over concatenation. */
  lemma FilasConcatena(v1: seq<Persona>, v2: seq<Persona>, fila: Persona -> string)
    ensures Filas(v1 + v2, fila) == Filas(v1, fila) + Filas(v2, fila)
  {
    var f, g := Filas(v1 + v2, fila), Filas(v1, fila) + Filas(v2, fila);
    forall i | 0 <= i < |f|
      ensures f[i] == g[i]
    {
      if i < |v1| {
        assert (v1 + v2)[i] == v1[i];
      } else {
        assert (v1 + v2)[i] == v2[i - |v1|];
      }
    }
  }

  /** Listing two collections one after the other puts the rows of the first
      before the rows of the second between one header and one footer. */
  lemma ImprimeConcatena(v1: seq<Persona>, v2: seq<Persona>)
    ensures Imprime(v1 + v2).contenido
         == CabeceraTable() + (Concatena(Filas(v1, CuerpoTr)) + Concatena(Filas(v2, CuerpoTr))) + PieTable()
  {
    FilasConcatena(v1, v2, CuerpoTr);
    ConcatenaConcatena(Filas(v1, CuerpoTr), Filas(v2, CuerpoTr));
  }
}
