/** The client-side filters: `Array.prototype.filter` and the three predicates
    the search listings pass to it (by name, the four-way disjunction, and the
    conjunction whose last operand is an array). */
module Filtros {
  import opened Personas
  import Js

  /** `r` is `s` with some elements dropped and the rest kept in their order. */
  predicate Subsecuencia<T(==)>(r: seq<T>, s: seq<T>)
    decreases |s|
  {
    if r == [] then true
    else if s == [] then false
    else if r[0] == s[0] then Subsecuencia(r[1..], s[1..])
    else Subsecuencia(r, s[1..])
  }

  /** `s.filter(p)`: exactly the elements that satisfy `p`, each as often as in
      `s`, in their original relative order. */
  function Filtra<T(==,!new)>(s: seq<T>, p: T -> bool): seq<T>
  {
    if s == [] then []
    else if p(s[0]) then [s[0]] + Filtra(s[1..], p)
    else Filtra(s[1..], p)
  }

  /** What `s.filter(p)` keeps is a subsequence of `s` whose every element satisfies `p`. */
  lemma {:induction false} FiltraSubsecuencia<T(!new)>(s: seq<T>, p: T -> bool)
    ensures Subsecuencia(Filtra(s, p), s)
    ensures forall i :: 0 <= i < |Filtra(s, p)| ==> p(Filtra(s, p)[i])
  {
    if s != [] {
      FiltraSubsecuencia(s[1..], p);
    }
  }

  /** An element is in `s.filter(p)` exactly when it is in `s` and satisfies `p`. */
  lemma {:induction false} FiltraPertenece<T(!new)>(s: seq<T>, p: T -> bool)
    ensures forall x :: x in Filtra(s, p) <==> x in s && p(x)
  {
    if s != [] {
      FiltraPertenece(s[1..], p);
      assert s == [s[0]] + s[1..];
    }
  }

  /** Each element occurs in `s.filter(p)` as often as in `s` when it satisfies
      `p`, and not at all otherwise. */
  lemma {:induction false} FiltraCuenta<T(!new)>(s: seq<T>, p: T -> bool)
    ensures forall x :: multiset(Filtra(s, p))[x] == if p(x) then multiset(s)[x] else 0
  {
    if s != [] {
      FiltraCuenta(s[1..], p);
      assert s == [s[0]] + s[1..];
    }
  }

  /** Filtering distributes over concatenation. */
  lemma {:induction false} FiltraConcatena<T(!new)>(a: seq<T>, b: seq<T>, p: T -> bool)
    ensures Filtra(a + b, p) == Filtra(a, p) + Filtra(b, p)
  {
    if a == [] {
      assert a + b == b;
    } else {
      var ab := a + b;
      assert ab[0] == a[0];
      assert ab[1..] == a[1..] + b;
      FiltraConcatena(a[1..], b, p);
      if p(a[0]) {
        calc {
          Filtra(ab, p);
          [a[0]] + Filtra(a[1..] + b, p);
          [a[0]] + (Filtra(a[1..], p) + Filtra(b, p));
          ([a[0]] + Filtra(a[1..], p)) + Filtra(b, p);
        }
      }
    }
  }

  /** Two predicates that agree on every element of `s` keep the same elements. */
  lemma {:induction false} FiltraExtensional<T(!new)>(s: seq<T>, p: T -> bool, q: T -> bool)
    requires forall i :: 0 <= i < |s| ==> p(s[i]) == q(s[i])
    ensures Filtra(s, p) == Filtra(s, q)
  {
    if s != [] {
      FiltraExtensional(s[1..], p, q);
    }
  }

  /** The predicate of the search by name: `persona.data.nombre === nombre`. */
  function CoincideNombre(nombre: string): Persona -> bool
  {
    (p: Persona) => p.data.nombre == nombre
  }

  /** The search by name: the records named exactly `nombre`, in their order;
      empty exactly when no record has that name (an empty input included). */
  function BuscaNombre(v: seq<Persona>, nombre: string): (r: seq<Persona>)
    ensures forall x :: x in r <==> x in v && x.data.nombre == nombre
    ensures Subsecuencia(r, v)
    ensures forall x :: multiset(r)[x] == if x.data.nombre == nombre then multiset(v)[x] else 0
    ensures r == [] <==> forall i :: 0 <= i < |v| ==> v[i].data.nombre != nombre
  {
    FiltraPertenece(v, CoincideNombre(nombre));
    FiltraCuenta(v, CoincideNombre(nombre));
    FiltraSubsecuencia(v, CoincideNombre(nombre));
    var r := Filtra(v, CoincideNombre(nombre));
    assert r != [] ==> r[0] in r;
    r
  }

  /** The predicate of the search by any of four fields. */
  function CoincideAlguno(nombre: string, tipo: string, num: string, calle: string): Persona -> bool
  {
    (p: Persona) => p.data.nombre == nombre || p.data.tipo == tipo
         || p.data.numeroParticipacionesOlimpicas == num || p.data.direccion.calle == calle
  }

  /** The search by any field: a record is kept when at least one of the four
      fields equals its argument. */
  function BuscaAlguno(v: seq<Persona>, nombre: string, tipo: string, num: string, calle: string): (r: seq<Persona>)
    ensures forall x :: x in r <==>
      x in v && (x.data.nombre == nombre || x.data.tipo == tipo
                 || x.data.numeroParticipacionesOlimpicas == num || x.data.direccion.calle == calle)
    ensures Subsecuencia(r, v)
    ensures forall x :: multiset(r)[x] == if CoincideAlguno(nombre, tipo, num, calle)(x) then multiset(v)[x] else 0
    ensures r == [] <==> forall i :: 0 <= i < |v| ==> !CoincideAlguno(nombre, tipo, num, calle)(v[i])
  {
    FiltraPertenece(v, CoincideAlguno(nombre, tipo, num, calle));
    FiltraCuenta(v, CoincideAlguno(nombre, tipo, num, calle));
    FiltraSubsecuencia(v, CoincideAlguno(nombre, tipo, num, calle));
    var r := Filtra(v, CoincideAlguno(nombre, tipo, num, calle));
    assert r != [] ==> r[0] in r;
    r
  }

  /** `anios.filter(a => a === anio)`: the inner filter of the search by several fields. */
  function AniosIguales(anios: seq<string>, anio: string): (r: seq<string>)
    ensures r != [] <==> anio in anios
  {
    var r := Filtra(anios, (a: string) => a == anio);
    FiltraPertenece(anios, (a: string) => a == anio);
    assert r != [] ==> r[0] in r;
    assert anio in anios ==> anio in r;
    r
  }

  /** The predicate of the search by several fields as written: the fourth
      operand of `&&` is the array `aniosParticipacionMundial.filter(...)`,
      and its truth value is that of an array. */
  function CoincideTodos(var1: string, var2: string, var3: string, var4: string): Persona -> bool
  {
    (p: Persona) => p.data.nombre == var1 && p.data.direccion.localidad == var2 && p.data.tipo == var3
         && !Js.Falso(Js.Vector(AniosIguales(p.data.aniosParticipacionMundial, var4)))
  }

  /** The search by several fields as written: the year plays no part, because
      an array is truthy even when the inner filter leaves it empty. */
  function BuscaTodos(v: seq<Persona>, var1: string, var2: string, var3: string, var4: string): (r: seq<Persona>)
    ensures forall x :: x in r <==>
      x in v && x.data.nombre == var1 && x.data.direccion.localidad == var2 && x.data.tipo == var3
    ensures Subsecuencia(r, v)
    ensures forall x :: multiset(r)[x]
                        == (if x.data.nombre == var1 && x.data.direccion.localidad == var2 && x.data.tipo == var3
                            then multiset(v)[x] else 0)
  {
    FiltraPertenece(v, CoincideTodos(var1, var2, var3, var4));
    FiltraCuenta(v, CoincideTodos(var1, var2, var3, var4));
    FiltraSubsecuencia(v, CoincideTodos(var1, var2, var3, var4));
    Filtra(v, CoincideTodos(var1, var2, var3, var4))
  }

  /** Whatever year is asked for, the search by several fields keeps the same records. */
  lemma BuscaTodosIgnoraAnio(v: seq<Persona>, var1: string, var2: string, var3: string, y1: string, y2: string)
    ensures BuscaTodos(v, var1, var2, var3, y1) == BuscaTodos(v, var1, var2, var3, y2)
  {
    FiltraExtensional(v, CoincideTodos(var1, var2, var3, y1), CoincideTodos(var1, var2, var3, y2));
  }

  /** The predicate the search by several fields evidently means: the year must
      be one of the record's years of participation. */
  function CoincideTodosConAnio(var1: string, var2: string, var3: string, var4: string): Persona -> bool
  {
    (p: Persona) => p.data.nombre == var1 && p.data.direccion.localidad == var2 && p.data.tipo == var3
         && AniosIguales(p.data.aniosParticipacionMundial, var4) != []
  }

  /** The corrected search by several fields: all four conditions hold, the
      year being among the record's years. */
  function BuscaTodosCorregido(v: seq<Persona>, var1: string, var2: string, var3: string, var4: string): (r: seq<Persona>)
    ensures forall x :: x in r <==>
      x in v && x.data.nombre == var1 && x.data.direccion.localidad == var2 && x.data.tipo == var3
      && var4 in x.data.aniosParticipacionMundial
    ensures Subsecuencia(r, v)
    ensures forall x :: multiset(r)[x]
                        == (if x.data.nombre == var1 && x.data.direccion.localidad == var2 && x.data.tipo == var3
                               && var4 in x.data.aniosParticipacionMundial
                            then multiset(v)[x] else 0)
  {
    FiltraPertenece(v, CoincideTodosConAnio(var1, var2, var3, var4));
    FiltraCuenta(v, CoincideTodosConAnio(var1, var2, var3, var4));
    FiltraSubsecuencia(v, CoincideTodosConAnio(var1, var2, var3, var4));
    Filtra(v, CoincideTodosConAnio(var1, var2, var3, var4))
  }

  /** A record with no participation in 2022 is returned by the search for 2022
      as written, and dropped by the corrected search. */
  lemma BuscaTodosContraejemplo()
    ensures var p := Persona("1", Datos("Ana", "Ruiz", Direccion("Mayor", "Jaén", "Jaén", "España"), ["2018"], "1", "Deportista"));
      BuscaTodos([p], "Ana", "Jaén", "Deportista", "2022") == [p]
      && BuscaTodosCorregido([p], "Ana", "Jaén", "Deportista", "2022") == []
  {
    var p := Persona("1", Datos("Ana", "Ruiz", Direccion("Mayor", "Jaén", "Jaén", "España"), ["2018"], "1", "Deportista"));
    var q := CoincideTodos("Ana", "Jaén", "Deportista", "2022");
    assert q(p);
    assert Filtra([p], q) == [p] + Filtra([p][1..], q);
    var q2 := CoincideTodosConAnio("Ana", "Jaén", "Deportista", "2022");
    assert !q2(p);
    assert Filtra([p], q2) == Filtra([p][1..], q2);
  }
}
