/** What the "home" and "acerca de" pages show for a downloaded payload: the
    payload is replaced by the null record when it is falsy, when it is not an
    object, or when a field the page needs is missing; the page then shows the
    fields of whatever record is left. */
module Carga {
  import opened Wrappers
  import opened Cadenas
  import opened Js
  import opened Tabla

  /** The message of the null record. */
  const MensajeNulo: string := "Datos Descargados No válidos"

  /** The null record that stands in for an unusable payload. */
  const Nulos: Valor := Objeto(map["mensaje" := MensajeNulo, "autor" := "", "email" := "", "fecha" := ""])

  /** The first two replacements: `d || nulos`, then nulos again unless
      `typeof` answers "object". What is left is a truthy object or array. */
  function Previo(d: Valor): (r: Valor)
    ensures r == d || r == Nulos
    ensures r == d <==> !Falso(d) && TipoDe(d) == "object"
    ensures r.Objeto? || r.Vector?
  {
    var d1 := if Falso(d) then Nulos else d;
    if TipoDe(d1) != "object" then Nulos else d1
  }

  /** The home page: the payload's `mensaje` when the payload is an object
      holding one, the null record's message otherwise. */
  function MostrarHome(d: Valor): (r: Articulo)
    ensures r.titulo == "Plantilla Home"
    ensures TieneCampo(d, "mensaje") ==> r.contenido == d.campos["mensaje"]
    ensures !TieneCampo(d, "mensaje") ==> r.contenido == MensajeNulo
  {
    var d2 := Previo(d);
    var d3 := if !TieneCampo(d2, "mensaje") then Nulos else d2;
    Articulo("Plantilla Home", d3.campos["mensaje"])
  }

  /** `mostrarHome` as `procesarHome` runs it: handed on its own to
      `descargarRuta`, which calls it as a plain function. The file is strict,
      so `this` is undefined there, and every read of `this.dDescargadosNulos`
      throws; `None` is that exception. Only a payload that needs no fallback
      reaches the page. */
  function MostrarHomeComoRetrollamada(d: Valor): (r: Option<Articulo>)
    ensures r.None? <==> !TieneCampo(d, "mensaje")
    ensures r.Some? ==> r.value == MostrarHome(d)
  {
    if Falso(d) then None
    else if TipoDe(d) != "object" then None
    else if !TieneCampo(d, "mensaje") then None
    else Some(Articulo("Plantilla Home", d.campos["mensaje"]))
  }

  /** A template with holes: `literales[0]`, the first value, `literales[1]`,
      and so on, ending with the last literal. */
  function Rellena(literales: seq<string>, valores: seq<string>): string
    requires |literales| == |valores| + 1
    decreases |valores|
  {
    if valores == [] then literales[0]
    else literales[0] + (valores[0] + Rellena(literales[1..], valores[1..]))
  }

  /** Reads the values back out of a filled template whose literals after the
      first start with `<`: each value runs to the next `<`. */
  function Huecos(s: string, literales: seq<string>): Option<seq<string>>
    decreases |literales|
  {
    if |literales| == 0 || !EmpiezaCon(s, literales[0]) then None
    else
      var t := s[|literales[0]|..];
      if |literales| == 1 then (if t == "" then Some([]) else None)
      else
        var k := Indice(t, '<');
        match Huecos(t[k..], literales[1..])
        case None => None
        case Some(vs) => Some([t[..k]] + vs)
  }

  /** Literals after the first start with `<`. */
  predicate Separados(literales: seq<string>)
  {
    forall i :: 1 <= i < |literales| ==> |literales[i]| > 0 && literales[i][0] == '<'
  }

  /** No value holds a `<`. */
  predicate SinEtiquetas(valores: seq<string>)
  {
    forall i :: 0 <= i < |valores| ==> '<' !in valores[i]
  }

  /** A filled template reads back as the values put in it. */
  lemma {:induction false} HuecosDeRellena(literales: seq<string>, valores: seq<string>)
    requires |literales| == |valores| + 1
    requires Separados(literales) && SinEtiquetas(valores)
    ensures Huecos(Rellena(literales, valores), literales) == Some(valores)
    decreases |valores|
  {
    var s := Rellena(literales, valores);
    Partes(literales[0], s[|literales[0]|..]);
    if valores == [] {
      assert s == literales[0] + "";
    } else {
      var v, cola := valores[0], Rellena(literales[1..], valores[1..]);
      assert s == literales[0] + (v + cola);
      Partes(literales[0], v + cola);
      var t := s[|literales[0]|..];
      assert t == v + cola;
      assert '<' !in v by {
        assert SinEtiquetas(valores);
      }
      assert Separados(literales[1..]) by {
        assert forall i :: 1 <= i < |literales[1..]| ==> literales[1..][i] == literales[i + 1];
      }
      assert SinEtiquetas(valores[1..]) by {
        assert forall i :: 0 <= i < |valores[1..]| ==> valores[1..][i] == valores[i + 1];
      }
      if valores[1..] == [] {
        assert cola == literales[1];
      } else {
        Partes(literales[1], valores[1] + Rellena(literales[2..], valores[2..]));
        assert cola[0] == literales[1][0];
      }
      IndiceTrasPrefijo(v, cola, '<');
      Partes(v, cola);
      HuecosDeRellena(literales[1..], valores[1..]);
      assert [v] + valores[1..] == valores;
    }
  }

  /** The literals of the "acerca de" template, in order. */
  const LiteralesAcercaDe: seq<string> := [
    "<div>\n    <p>",
    "</p>\n    <ul>\n        <li><b>Autor/a</b>: ",
    "</li>\n        <li><b>E-mail</b>: ",
    "</li>\n        <li><b>Fecha</b>: ",
    "</li>\n    </ul>\n    </div>\n    "
  ]

  /** The "acerca de" template with its four values in place. */
  function AcercaDeHtml(mensaje: string, autor: string, email: string, fecha: string): string
  {
    "<div>\n    <p>" + (mensaje
    + ("</p>\n    <ul>\n        <li><b>Autor/a</b>: " + (autor
    + ("</li>\n        <li><b>E-mail</b>: " + (email
    + ("</li>\n        <li><b>Fecha</b>: " + (fecha
    + "</li>\n    </ul>\n    </div>\n    ")))))))
  }

  /** The template is the literals with the four values between them. */
  lemma AcercaDeEsRellena(mensaje: string, autor: string, email: string, fecha: string)
    ensures AcercaDeHtml(mensaje, autor, email, fecha)
         == Rellena(LiteralesAcercaDe, [mensaje, autor, email, fecha])
  {
    var ls := LiteralesAcercaDe;
    assert Rellena(ls[4..], []) == ls[4];
    assert Rellena(ls[3..], [fecha]) == ls[3] + (fecha + ls[4]);
    assert Rellena(ls[2..], [email, fecha]) == ls[2] + (email + Rellena(ls[3..], [fecha]));
    assert Rellena(ls[1..], [autor, email, fecha]) == ls[1] + (autor + Rellena(ls[2..], [email, fecha]));
  }

  /** The four fields the "acerca de" page checks are all present. */
  predicate Completo(d: Valor)
  {
    TieneCampo(d, "mensaje") && TieneCampo(d, "autor")
    && TieneCampo(d, "email") && TieneCampo(d, "fecha")
  }

  /** The null record passes every check, so falling back to it is final. */
  lemma NulosCompleto()
    ensures !Falso(Nulos) && TipoDe(Nulos) == "object" && Completo(Nulos)
  {
  }

  /** The values the "acerca de" page shows: the payload's four fields when it
      holds all of them, the null record's otherwise. */
  function ValoresAcercaDe(d: Valor): (r: seq<string>)
    ensures |r| == 4
  {
    var m := if Completo(d) then d.campos else Nulos.campos;
    [m["mensaje"], m["autor"], m["email"], m["fecha"]]
  }

  /** The three replacements of the "acerca de" page: what is left is the
      payload when it holds all four fields, the null record otherwise. */
  function Normalizado(d: Valor): (r: Valor)
    ensures Completo(d) ==> r == d
    ensures !Completo(d) ==> r == Nulos
  {
    var d2 := Previo(d);
    if !TieneCampo(d2, "mensaje") || !TieneCampo(d2, "autor")
       || !TieneCampo(d2, "email") || !TieneCampo(d2, "fecha")
    then Nulos else d2
  }

  /** A filled template contains its first value. */
  lemma RellenaContiene(literales: seq<string>, valores: seq<string>)
    requires |literales| == |valores| + 1 && |valores| > 0
    ensures Contiene(Rellena(literales, valores), valores[0])
  {
    var cola := Rellena(literales[1..], valores[1..]);
    ContieneEnMedio(literales[0], valores[0], cola);
    Asocia(literales[0], valores[0], cola);
  }

  /** The "acerca de" page, replacing the payload step by step. */
  function MostrarAcercaDe(d: Valor): (r: Articulo)
    ensures r.titulo == "Plantilla Acerca de"
    ensures r.contenido == Rellena(LiteralesAcercaDe, ValoresAcercaDe(d))
    ensures Completo(d) ==> Contiene(r.contenido, d.campos["mensaje"])
    ensures !Completo(d) ==> Contiene(r.contenido, MensajeNulo)
  {
    var d3 := Normalizado(d);
    NulosCompleto();
    var m, a, e, f := d3.campos["mensaje"], d3.campos["autor"], d3.campos["email"], d3.campos["fecha"];
    assert [m, a, e, f] == ValoresAcercaDe(d);
    AcercaDeEsRellena(m, a, e, f);
    RellenaContiene(LiteralesAcercaDe, [m, a, e, f]);
    Articulo("Plantilla Acerca de", AcercaDeHtml(m, a, e, f))
  }

  /** `mostrarAcercaDe` as `procesarAcercaDe` runs it: called as a plain
      function, so each fallback to `this.dDescargadosNulos` throws and gives
      `None`. Only a payload holding all four fields reaches the page. */
  function MostrarAcercaDeComoRetrollamada(d: Valor): (r: Option<Articulo>)
    ensures r.None? <==> !Completo(d)
    ensures r.Some? ==> r.value == MostrarAcercaDe(d)
  {
    if Falso(d) then None
    else if TipoDe(d) != "object" then None
    else if !Completo(d) then None
    else Some(Articulo("Plantilla Acerca de", AcercaDeHtml(d.campos["mensaje"], d.campos["autor"],
                                                           d.campos["email"], d.campos["fecha"])))
  }

  /** An empty response body (`null`) shows the null record's message when the
      pages are called as methods, and throws when they run as callbacks. */
  lemma RetrollamadaContraejemplo()
    ensures MostrarHome(Nulo).contenido == MensajeNulo
    ensures MostrarHomeComoRetrollamada(Nulo).None?
    ensures Contiene(MostrarAcercaDe(Nulo).contenido, MensajeNulo)
    ensures MostrarAcercaDeComoRetrollamada(Nulo).None?
  {
    assert !Completo(Nulo);
  }

  /** The four values read back out of the page when none holds a `<`. */
  lemma AcercaDeSeLee(d: Valor)
    requires SinEtiquetas(ValoresAcercaDe(d))
    ensures Huecos(MostrarAcercaDe(d).contenido, LiteralesAcercaDe) == Some(ValoresAcercaDe(d))
  {
    HuecosDeRellena(LiteralesAcercaDe, ValoresAcercaDe(d));
  }
}
