/** Reading a listing back: a small parser for the markup the row templates
    produce. It is the inverse the renderer is checked against: whenever the
    field values hold no `<` (and the identifier no `"`), a listing reads back
    as exactly one row per record, in order, with that record's cells. */
module LecturaTabla {
  import opened Wrappers
  import opened Cadenas
  import opened Personas
  import opened Tabla

  /** A row as read back: its title attribute and its cells. */
  datatype FilaLeida = FilaLeida(titulo: string, celdas: seq<string>)

  /** Reads cells up to the end of the row; a cell runs to the first `<`.
      Gives the cells and the text after the row. */
  function LeeCeldas(s: string): (r: Option<(seq<string>, string)>)
    ensures r.Some? ==> |r.value.1| < |s|
    decreases |s|
  {
    if EmpiezaCon(s, CierraFila) then Some(([], s[|CierraFila|..]))
    else if EmpiezaCon(s, AbreCelda) then
      var t := s[|AbreCelda|..];
      var k := Indice(t, '<');
      if EmpiezaCon(t[k..], CierraCelda) then
        match LeeCeldas(t[k + |CierraCelda|..])
        case None => None
        case Some((cs, resto)) => Some(([t[..k]] + cs, resto))
      else None
    else None
  }

  /** Reads one row; the title runs to the first `"`. */
  function LeeFila(s: string): (r: Option<(FilaLeida, string)>)
    ensures r.Some? ==> |r.value.1| < |s|
  {
    if EmpiezaCon(s, AbreFila) then
      var t := s[|AbreFila|..];
      var k := Indice(t, '"');
      if EmpiezaCon(t[k..], CierraTitulo) then
        match LeeCeldas(t[k + |CierraTitulo|..])
        case None => None
        case Some((cs, resto)) => Some((FilaLeida(t[..k], cs), resto))
      else None
    else None
  }

  /** Reads rows until exactly the footer is left. */
  function LeeFilas(s: string): Option<seq<FilaLeida>>
    decreases |s|
  {
    if s == PieTable() then Some([])
    else
      match LeeFila(s)
      case None => None
      case Some((f, resto)) =>
        match LeeFilas(resto)
        case None => None
        case Some(fs) => Some([f] + fs)
  }

  /** Reads a whole listing that starts with `cabecera`. */
  function LeeListado(html: string, cabecera: string): Option<seq<FilaLeida>>
  {
    if EmpiezaCon(html, cabecera) then LeeFilas(html[|cabecera|..]) else None
  }

  /** No cell holds a `<`. */
  predicate CeldasLegibles(cs: seq<string>)
  {
    forall i :: 0 <= i < |cs| ==> '<' !in cs[i]
  }

  /** A record whose values cannot be confused with the markup around them:
      no `<` anywhere, and no `"` in the identifier, which is also the title. */
  predicate Legible(p: Persona)
  {
    var d := p.data;
    '"' !in p.id && '<' !in p.id && '<' !in d.nombre && '<' !in d.apellido
    && '<' !in d.direccion.calle && '<' !in d.direccion.localidad
    && '<' !in d.direccion.provincia && '<' !in d.direccion.pais
    && (forall i :: 0 <= i < |d.aniosParticipacionMundial| ==> '<' !in d.aniosParticipacionMundial[i])
    && '<' !in d.numeroParticipacionesOlimpicas && '<' !in d.tipo
  }

  /** The same for the three fields the names-only row shows. */
  predicate LegibleNombres(p: Persona)
  {
    '"' !in p.id && '<' !in p.id && '<' !in p.data.nombre && '<' !in p.data.apellido
  }

  /** What a listing of `v` should read back as, given the cells of each row. */
  function Esperadas(v: seq<Persona>, celdas: Persona -> seq<string>): (r: seq<FilaLeida>)
    ensures |r| == |v|
  {
    seq(|v|, i requires 0 <= i < |v| => FilaLeida(v[i].id, celdas(v[i])))
  }

  lemma EsperadasCabeza(v: seq<Persona>, celdas: Persona -> seq<string>)
    requires |v| > 0
    ensures Esperadas(v, celdas) == [FilaLeida(v[0].id, celdas(v[0]))] + Esperadas(v[1..], celdas)
  {
    var a, b := Esperadas(v, celdas), [FilaLeida(v[0].id, celdas(v[0]))] + Esperadas(v[1..], celdas);
    assert |a| == |b|;
    forall i | 0 <= i < |a|
      ensures a[i] == b[i]
    {
      if i > 0 {
        assert b[i] == Esperadas(v[1..], celdas)[i - 1];
      }
    }
  }

  /** One cell without `<`, followed by `siguiente`: the reader sees a cell
      opening, not the row's end, takes `c` as the cell and resumes at `siguiente`. */
  lemma UnaCelda(c: string, siguiente: string)
    requires '<' !in c
    ensures var s := AbreCelda + (c + (CierraCelda + siguiente));
      && !EmpiezaCon(s, CierraFila) && EmpiezaCon(s, AbreCelda)
      && var t := s[|AbreCelda|..];
         Indice(t, '<') == |c| && t[..|c|] == c && EmpiezaCon(t[|c|..], CierraCelda)
         && t[|c| + |CierraCelda|..] == siguiente
  {
    var cola := CierraCelda + siguiente;
    var s := AbreCelda + (c + cola);
    assert s[6] == 't' && CierraFila[6] == '/';
    Partes(AbreCelda, c + cola);
    var t := s[|AbreCelda|..];
    IndiceTrasPrefijo(c, cola, '<');
    Partes(c, cola);
    Partes(CierraCelda, siguiente);
    assert t[|c| + |CierraCelda|..] == cola[|CierraCelda|..];
  }

  /** Cells written by `Celdas` read back as themselves, and reading stops right after the row. */
  lemma {:induction false} LeeCeldasDeCeldas(cs: seq<string>, resto: string)
    requires CeldasLegibles(cs)
    ensures LeeCeldas(Celdas(cs) + resto) == Some((cs, resto))
  {
    var s := Celdas(cs) + resto;
    if cs == [] {
      Partes(CierraFila, resto);
    } else {
      var c, siguiente := cs[0], Celdas(cs[1..]) + resto;
      assert s == AbreCelda + (c + (CierraCelda + siguiente));
      assert '<' !in c by {
        assert CeldasLegibles(cs);
      }
      UnaCelda(c, siguiente);
      assert CeldasLegibles(cs[1..]) by {
        assert forall i :: 0 <= i < |cs[1..]| ==> cs[1..][i] == cs[i + 1];
      }
      LeeCeldasDeCeldas(cs[1..], resto);
      assert [c] + cs[1..] == cs;
    }
  }

  /** A title without `"`, followed by `siguiente`: the reader sees a row
      opening, takes the title and resumes at `siguiente`. */
  lemma UnTitulo(titulo: string, siguiente: string)
    requires '"' !in titulo
    ensures var s := AbreFila + (titulo + (CierraTitulo + siguiente));
      && EmpiezaCon(s, AbreFila)
      && var t := s[|AbreFila|..];
         Indice(t, '"') == |titulo| && t[..|titulo|] == titulo && EmpiezaCon(t[|titulo|..], CierraTitulo)
         && t[|titulo| + |CierraTitulo|..] == siguiente
  {
    var cola := CierraTitulo + siguiente;
    Partes(AbreFila, titulo + cola);
    IndiceTrasPrefijo(titulo, cola, '"');
    Partes(titulo, cola);
    Partes(CierraTitulo, siguiente);
    var t := (AbreFila + (titulo + cola))[|AbreFila|..];
    assert t[|titulo| + |CierraTitulo|..] == cola[|CierraTitulo|..];
  }

  /** A row written by `Fila` reads back as its title and cells, and reading stops right after it. */
  lemma LeeFilaDeFila(titulo: string, cs: seq<string>, resto: string)
    requires '"' !in titulo
    requires CeldasLegibles(cs)
    ensures LeeFila(Fila(titulo, cs) + resto) == Some((FilaLeida(titulo, cs), resto))
  {
    var siguiente := Celdas(cs) + resto;
    assert Fila(titulo, cs) + resto == AbreFila + (titulo + (CierraTitulo + siguiente));
    UnTitulo(titulo, siguiente);
    LeeCeldasDeCeldas(cs, resto);
  }

  /** A row never is the footer, whatever follows it. */
  lemma FilaNoEsPie(titulo: string, cs: seq<string>, resto: string)
    ensures Fila(titulo, cs) + resto != PieTable()
  {
    var s := Fila(titulo, cs) + resto;
    assert s == AbreFila + (titulo + (CierraTitulo + Celdas(cs)) + resto);
    assert s[1] == 't' && PieTable()[1] == '/';
  }

  /** The concatenated rows of `v` are the first record's row followed by the rest's. */
  lemma ConcatenaFilasCabeza(v: seq<Persona>, fila: Persona -> string)
    requires |v| > 0
    ensures Concatena(Filas(v, fila)) == fila(v[0]) + Concatena(Filas(v[1..], fila))
  {
    assert Filas(v, fila)[1..] == Filas(v[1..], fila);
  }

  /** Rows that are all `Fila`s of readable records, followed by the footer,
      read back as one row per record, in order. */
  lemma {:induction false} LeeFilasDeFilas(v: seq<Persona>, fila: Persona -> string, celdas: Persona -> seq<string>)
    requires forall i :: 0 <= i < |v| ==> fila(v[i]) == Fila(v[i].id, celdas(v[i]))
    requires forall i :: 0 <= i < |v| ==> '"' !in v[i].id && CeldasLegibles(celdas(v[i]))
    ensures LeeFilas(Concatena(Filas(v, fila)) + PieTable()) == Some(Esperadas(v, celdas))
  {
    var s := Concatena(Filas(v, fila)) + PieTable();
    if v == [] {
      assert s == PieTable();
    } else {
      var resto := Concatena(Filas(v[1..], fila)) + PieTable();
      ConcatenaFilasCabeza(v, fila);
      assert s == Fila(v[0].id, celdas(v[0])) + resto;
      FilaNoEsPie(v[0].id, celdas(v[0]), resto);
      LeeFilaDeFila(v[0].id, celdas(v[0]), resto);
      LeeFilasDeFilas(v[1..], fila, celdas);
      EsperadasCabeza(v, celdas);
    }
  }

  /** The full listing of readable records reads back as one row per record,
      in order, titled with its identifier and holding its seven cells. */
  lemma ImprimeSeLee(v: seq<Persona>)
    requires forall i :: 0 <= i < |v| ==> Legible(v[i])
    ensures LeeListado(Imprime(v).contenido, CabeceraTable()) == Some(Esperadas(v, CeldasCompletas))
  {
    forall i | 0 <= i < |v|
      ensures CuerpoTr(v[i]) == Fila(v[i].id, CeldasCompletas(v[i]))
      ensures '"' !in v[i].id && CeldasLegibles(CeldasCompletas(v[i]))
    {
      var d := v[i].data;
      CuerpoTrEsFila(v[i]);
      UneSinCaracter(d.aniosParticipacionMundial, ",", '<');
    }
    LeeFilasDeFilas(v, CuerpoTr, CeldasCompletas);
    var cuerpo := Concatena(Filas(v, CuerpoTr)) + PieTable();
    var html := Imprime(v).contenido;
    Asocia(CabeceraTable(), Concatena(Filas(v, CuerpoTr)), PieTable());
    Partes(CabeceraTable(), cuerpo);
  }

  /** The names-only listing reads back as one row per record, in order, with
      exactly the identifier, the name and the surname. */
  lemma ImprimeNombresSeLee(v: seq<Persona>)
    requires forall i :: 0 <= i < |v| ==> LegibleNombres(v[i])
    ensures LeeListado(ImprimeNombres(v).contenido, CabeceraTableNombres()) == Some(Esperadas(v, CeldasNombres))
  {
    forall i | 0 <= i < |v|
      ensures CuerpoTrNombres(v[i]) == Fila(v[i].id, CeldasNombres(v[i]))
      ensures '"' !in v[i].id && CeldasLegibles(CeldasNombres(v[i]))
    {
      CuerpoTrNombresEsFila(v[i]);
    }
    LeeFilasDeFilas(v, CuerpoTrNombres, CeldasNombres);
    var cuerpo := Concatena(Filas(v, CuerpoTrNombres)) + PieTable();
    var html := ImprimeNombres(v).contenido;
    Asocia(CabeceraTableNombres(), Concatena(Filas(v, CuerpoTrNombres)), PieTable());
    Partes(CabeceraTableNombres(), cuerpo);
  }
}
