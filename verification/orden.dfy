/** The case-insensitive sorts: the comparator the three alphabetic listings
    pass to `Array.prototype.sort`, and the stable sort it drives. */
module Orden {
  import opened Cadenas
  import opened Filtros

  /** The comparator: -1 when the lower-cased `a` comes first, 1 when the
      lower-cased `b` does, 0 when they are the same string. */
  function Compara(a: string, b: string): (r: int)
    ensures r == -1 || r == 0 || r == 1
    ensures r == -1 <==> Menor(Minusculas(a), Minusculas(b))
    ensures r == 1 <==> Menor(Minusculas(b), Minusculas(a))
    ensures r == 0 <==> Minusculas(a) == Minusculas(b)
  {
    var ka := Minusculas(a);
    var kb := Minusculas(b);
    MenorIrreflexivo(ka);
    MenorTricotomia(ka, kb);
    if Menor(ka, kb) then
      MenorAsimetrico(ka, kb);
      -1
    else if Menor(kb, ka) then 1
    else 0
  }

  /** No pair of elements of `s` is out of order for the comparator on `clave`. */
  predicate Ordenada<T>(s: seq<T>, clave: T -> string)
  {
    forall i, j :: 0 <= i < j < |s| ==> Compara(clave(s[i]), clave(s[j])) <= 0
  }

  /** The test "has lower-cased key `c`". */
  function TieneClave<T>(clave: T -> string, c: string): T -> bool
  {
    x => Minusculas(clave(x)) == c
  }

  /** The elements of `s` whose lower-cased key is `c`, in their order in `s`. */
  function ConClave<T(==,!new)>(s: seq<T>, clave: T -> string, c: string): seq<T>
  {
    Filtra(s, TieneClave(clave, c))
  }

  /** Peeling the first element off `s`. */
  lemma ConClaveCabeza<T(!new)>(s: seq<T>, clave: T -> string, c: string)
    requires |s| > 0
    ensures ConClave(s, clave, c)
         == (if Minusculas(clave(s[0])) == c then [s[0]] else []) + ConClave(s[1..], clave, c)
  {
  }

  /** A sequence none of whose elements has key `c` has no elements with key `c`. */
  lemma {:induction false} ConClaveVacia<T(!new)>(s: seq<T>, clave: T -> string, c: string)
    requires forall i :: 0 <= i < |s| ==> Minusculas(clave(s[i])) != c
    ensures ConClave(s, clave, c) == []
  {
    if s != [] {
      ConClaveCabeza(s, clave, c);
      ConClaveVacia(s[1..], clave, c);
    }
  }

  /** Inserting `x` into a sequence sorted by the comparator: `x` goes after
      every element that does not compare above it, so it lands behind its equals. */
  function Inserta<T>(x: T, t: seq<T>, clave: T -> string): seq<T>
  {
    if t == [] then [x]
    else if Compara(clave(x), clave(t[0])) < 0 then [x] + t
    else [t[0]] + Inserta(x, t[1..], clave)
  }

  /** Inserting adds exactly `x`. */
  lemma {:induction false} InsertaPermuta<T(!new)>(x: T, t: seq<T>, clave: T -> string)
    ensures multiset(Inserta(x, t, clave)) == multiset(t) + multiset{x}
  {
    if t != [] && Compara(clave(x), clave(t[0])) >= 0 {
      InsertaPermuta(x, t[1..], clave);
      assert t == [t[0]] + t[1..];
    }
  }

  /** `x` in front of a sorted `t` whose first element does not compare below
      it gives a sorted sequence. */
  lemma DelanteOrdenada<T>(x: T, t: seq<T>, clave: T -> string)
    requires Ordenada(t, clave)
    requires |t| > 0 && Compara(clave(x), clave(t[0])) < 0
    ensures Ordenada([x] + t, clave)
  {
    var r := [x] + t;
    forall j | 0 < j < |r|
      ensures Compara(clave(x), clave(r[j])) <= 0
    {
      var kx, k0, kj := Minusculas(clave(x)), Minusculas(clave(t[0])), Minusculas(clave(r[j]));
      if j > 1 {
        assert Compara(clave(t[0]), clave(t[j - 1])) <= 0;
      }
      if Menor(kj, kx) {
        MenorTransitivo(kj, kx, k0);
      }
    }
    forall i, j | 0 < i < j < |r|
      ensures Compara(clave(r[i]), clave(r[j])) <= 0
    {
      assert r[i] == t[i - 1] && r[j] == t[j - 1];
    }
  }

  /** The first element of a sorted `t` does not compare above any later
      element of `t`, nor above an `x` that does not compare below it. */
  lemma CabezaAntesDe<T>(y: T, x: T, t: seq<T>, clave: T -> string)
    requires Ordenada(t, clave)
    requires |t| > 0 && Compara(clave(x), clave(t[0])) >= 0
    requires y == x || y in t[1..]
    ensures Compara(clave(t[0]), clave(y)) <= 0
  {
    if y != x {
      var k :| 0 <= k < |t[1..]| && t[1..][k] == y;
      assert t[k + 1] == y;
    }
  }

  /** The first element of a sorted `t`, in front of a sorted arrangement of
      the rest of `t` and an `x` that does not compare below it, gives a sorted
      sequence. */
  lemma TrasCabezaOrdenada<T(!new)>(x: T, t: seq<T>, u: seq<T>, clave: T -> string)
    requires Ordenada(t, clave) && Ordenada(u, clave)
    requires |t| > 0 && Compara(clave(x), clave(t[0])) >= 0
    requires multiset(u) == multiset(t[1..]) + multiset{x}
    ensures Ordenada([t[0]] + u, clave)
  {
    var r := [t[0]] + u;
    forall j | 0 <= j < |u|
      ensures Compara(clave(t[0]), clave(u[j])) <= 0
    {
      assert u[j] in multiset(u);
      assert u[j] == x || u[j] in multiset(t[1..]);
      CabezaAntesDe(u[j], x, t, clave);
    }
    forall i, j | 0 <= i < j < |r|
      ensures Compara(clave(r[i]), clave(r[j])) <= 0
    {
      assert r[j] == u[j - 1];
      if i > 0 {
        assert r[i] == u[i - 1];
      }
    }
  }

  /** Inserting into a sorted sequence keeps it sorted. */
  lemma {:induction false} InsertaOrdenada<T(!new)>(x: T, t: seq<T>, clave: T -> string)
    requires Ordenada(t, clave)
    ensures Ordenada(Inserta(x, t, clave), clave)
  {
    if t == [] {
      assert Inserta(x, t, clave) == [x];
    } else if Compara(clave(x), clave(t[0])) < 0 {
      assert Inserta(x, t, clave) == [x] + t;
      DelanteOrdenada(x, t, clave);
    } else {
      var u := Inserta(x, t[1..], clave);
      assert Inserta(x, t, clave) == [t[0]] + u;
      assert Ordenada(t[1..], clave) by {
        forall i, j | 0 <= i < j < |t[1..]|
          ensures Compara(clave(t[1..][i]), clave(t[1..][j])) <= 0
        {
          assert t[1..][i] == t[i + 1] && t[1..][j] == t[j + 1];
        }
      }
      InsertaOrdenada(x, t[1..], clave);
      InsertaPermuta(x, t[1..], clave);
      TrasCabezaOrdenada(x, t, u, clave);
    }
  }

  /** When `x` compares below the first element of a sorted `t`, no element
      of `t` shares its key. */
  lemma DelanteSinIguales<T(!new)>(x: T, t: seq<T>, clave: T -> string)
    requires Ordenada(t, clave)
    requires |t| > 0 && Compara(clave(x), clave(t[0])) < 0
    ensures forall i :: 0 <= i < |t| ==> Minusculas(clave(t[i])) != Minusculas(clave(x))
  {
    forall i | 0 <= i < |t|
      ensures Minusculas(clave(t[i])) != Minusculas(clave(x))
    {
      if i > 0 {
        assert Compara(clave(t[0]), clave(t[i])) <= 0;
      }
      MenorIrreflexivo(Minusculas(clave(x)));
    }
  }

  /** `x` placed in front of a sorted `t` whose first element compares above
      it: `x` is the only element of its key. */
  lemma DelanteEstable<T(!new)>(x: T, t: seq<T>, clave: T -> string, c: string)
    requires Ordenada(t, clave)
    requires |t| > 0 && Compara(clave(x), clave(t[0])) < 0
    ensures ConClave([x] + t, clave, c)
         == ConClave(t, clave, c) + (if Minusculas(clave(x)) == c then [x] else [])
  {
    var r := [x] + t;
    assert r[1..] == t;
    ConClaveCabeza(r, clave, c);
    if Minusculas(clave(x)) == c {
      DelanteSinIguales(x, t, clave);
      ConClaveVacia(t, clave, c);
    }
  }

  /** Inserting `x` adds it behind every element with the same key and leaves
      the elements of every other key as they were. */
  lemma {:induction false} InsertaEstable<T(!new)>(x: T, t: seq<T>, clave: T -> string, c: string)
    requires Ordenada(t, clave)
    ensures ConClave(Inserta(x, t, clave), clave, c)
         == ConClave(t, clave, c) + (if Minusculas(clave(x)) == c then [x] else [])
    decreases |t|
  {
    if t == [] {
      assert Inserta(x, t, clave) == [x];
      ConClaveCabeza([x], clave, c);
      assert [x][1..] == [];
    } else if Compara(clave(x), clave(t[0])) < 0 {
      assert Inserta(x, t, clave) == [x] + t;
      DelanteEstable(x, t, clave, c);
    } else {
      var u := Inserta(x, t[1..], clave);
      var r := [t[0]] + u;
      assert Inserta(x, t, clave) == r;
      assert r[1..] == u;
      ConClaveCabeza(r, clave, c);
      ConClaveCabeza(t, clave, c);
      InsertaEstable(x, t[1..], clave, c);
    }
  }

  /** Insertion sort on the comparator: each element is inserted, in input
      order, behind its equals. */
  function Ordena<T>(s: seq<T>, clave: T -> string): seq<T>
    decreases |s|
  {
    if s == [] then []
    else Inserta(s[|s| - 1], Ordena(s[..|s| - 1], clave), clave)
  }

  /** The sort gives a permutation of its input. */
  lemma {:induction false} OrdenaPermuta<T(!new)>(s: seq<T>, clave: T -> string)
    ensures multiset(Ordena(s, clave)) == multiset(s)
    decreases |s|
  {
    if s != [] {
      var ini := s[..|s| - 1];
      OrdenaPermuta(ini, clave);
      InsertaPermuta(s[|s| - 1], Ordena(ini, clave), clave);
      assert s == ini + [s[|s| - 1]];
    }
  }

  /** The sort gives a sequence the comparator finds in order. */
  lemma {:induction false} OrdenaOrdenada<T(!new)>(s: seq<T>, clave: T -> string)
    ensures Ordenada(Ordena(s, clave), clave)
    decreases |s|
  {
    if s != [] {
      var ini := s[..|s| - 1];
      OrdenaOrdenada(ini, clave);
      InsertaOrdenada(s[|s| - 1], Ordena(ini, clave), clave);
    }
  }

  /** The sort is stable: for every key, the elements with that key appear in
      the output in the order they had in the input. */
  lemma {:induction false} OrdenaEstable<T(!new)>(s: seq<T>, clave: T -> string, c: string)
    ensures ConClave(Ordena(s, clave), clave, c) == ConClave(s, clave, c)
    decreases |s|
  {
    if s != [] {
      var ini, x := s[..|s| - 1], s[|s| - 1];
      var o := Ordena(ini, clave);
      assert Ordena(s, clave) == Inserta(x, o, clave);
      OrdenaOrdenada(ini, clave);
      OrdenaEstable(ini, clave, c);
      InsertaEstable(x, o, clave, c);
      assert s == ini + [x];
      FiltraConcatena(ini, [x], TieneClave(clave, c));
      ConClaveCabeza([x], clave, c);
    }
  }

  /** Stability for every key at once. */
  lemma OrdenaEstableTodas<T(!new)>(s: seq<T>, clave: T -> string)
    ensures forall c :: ConClave(Ordena(s, clave), clave, c) == ConClave(s, clave, c)
  {
    forall c
      ensures ConClave(Ordena(s, clave), clave, c) == ConClave(s, clave, c)
    {
      OrdenaEstable(s, clave, c);
    }
  }

  /** Neither of two strings below the other means they are the same string. */
  lemma MismaClave(a: string, b: string)
    requires !Menor(a, b) && !Menor(b, a)
    ensures a == b
  {
    MenorTricotomia(a, b);
  }

  /** The first element of `r2` occurs in any `r1` holding the same elements
      with its key. */
  lemma CabezaPresente<T(!new)>(r1: seq<T>, r2: seq<T>, clave: T -> string)
    requires r2 != []
    requires ConClave(r1, clave, Minusculas(clave(r2[0])))
          == ConClave(r2, clave, Minusculas(clave(r2[0])))
    ensures r2[0] in r1
  {
    var c := Minusculas(clave(r2[0]));
    ConClaveCabeza(r2, clave, c);
    FiltraPertenece(r1, TieneClave(clave, c));
    assert r2[0] in ConClave(r1, clave, c);
  }

  /** Two sorted sequences holding each other's first element, and the same
      elements with the first one's key, start with the same element. */
  lemma MismaCabeza<T(!new)>(r1: seq<T>, r2: seq<T>, clave: T -> string)
    requires Ordenada(r1, clave) && Ordenada(r2, clave)
    requires r1 != [] && r2 != [] && r2[0] in r1 && r1[0] in r2
    requires ConClave(r1, clave, Minusculas(clave(r1[0])))
          == ConClave(r2, clave, Minusculas(clave(r1[0])))
    ensures r1[0] == r2[0]
  {
    var c1, c2 := Minusculas(clave(r1[0])), Minusculas(clave(r2[0]));
    var i :| 0 <= i < |r1| && r1[i] == r2[0];
    var j :| 0 <= j < |r2| && r2[j] == r1[0];
    if i > 0 {
      assert Compara(clave(r1[0]), clave(r1[i])) <= 0;
    }
    if j > 0 {
      assert Compara(clave(r2[0]), clave(r2[j])) <= 0;
    }
    MenorIrreflexivo(c1);
    MismaClave(c1, c2);
    ConClaveCabeza(r1, clave, c1);
    ConClaveCabeza(r2, clave, c1);
    assert ConClave(r1, clave, c1)[0] == r1[0];
    assert ConClave(r2, clave, c1)[0] == r2[0];
  }

  /** Dropping a common first element keeps the key-by-key agreement. */
  lemma ColasConClave<T(!new)>(r1: seq<T>, r2: seq<T>, clave: T -> string, c: string)
    requires r1 != [] && r2 != [] && r1[0] == r2[0]
    requires ConClave(r1, clave, c) == ConClave(r2, clave, c)
    ensures ConClave(r1[1..], clave, c) == ConClave(r2[1..], clave, c)
  {
    ConClaveCabeza(r1, clave, c);
    ConClaveCabeza(r2, clave, c);
    if Minusculas(clave(r1[0])) == c {
      assert ConClave(r1, clave, c)[1..] == ConClave(r1[1..], clave, c);
      assert ConClave(r2, clave, c)[1..] == ConClave(r2[1..], clave, c);
    } else {
      assert ConClave(r1, clave, c) == ConClave(r1[1..], clave, c);
      assert ConClave(r2, clave, c) == ConClave(r2[1..], clave, c);
    }
  }

  /** Two sequences that are both sorted and hold, key by key, the same
      elements in the same order are the same sequence. */
  lemma {:induction false} Unicidad<T(!new)>(r1: seq<T>, r2: seq<T>, clave: T -> string)
    requires Ordenada(r1, clave) && Ordenada(r2, clave)
    requires forall c :: ConClave(r1, clave, c) == ConClave(r2, clave, c)
    ensures r1 == r2
    decreases |r1| + |r2|
  {
    if r2 != [] {
      var c2 := Minusculas(clave(r2[0]));
      assert ConClave(r1, clave, c2) == ConClave(r2, clave, c2);
      CabezaPresente(r1, r2, clave);
    }
    if r1 != [] {
      var c1 := Minusculas(clave(r1[0]));
      assert ConClave(r2, clave, c1) == ConClave(r1, clave, c1);
      CabezaPresente(r2, r1, clave);
    }
    if r1 != [] && r2 != [] {
      MismaCabeza(r1, r2, clave);
      forall c
        ensures ConClave(r1[1..], clave, c) == ConClave(r2[1..], clave, c)
      {
        ColasConClave(r1, r2, clave, c);
      }
      Unicidad(r1[1..], r2[1..], clave);
      assert r1 == [r1[0]] + r1[1..] && r2 == [r2[0]] + r2[1..];
    }
  }

  /** Any sorted arrangement of `s` that keeps each key's elements in input
      order is the one `Ordena` produces: whichever stable algorithm the host
      uses, the result is this one. */
  lemma OrdenaUnica<T(!new)>(s: seq<T>, r: seq<T>, clave: T -> string)
    requires Ordenada(r, clave)
    requires forall c :: ConClave(r, clave, c) == ConClave(s, clave, c)
    ensures r == Ordena(s, clave)
  {
    forall c
      ensures ConClave(r, clave, c) == ConClave(Ordena(s, clave), clave, c)
    {
      OrdenaEstable(s, clave, c);
    }
    OrdenaOrdenada(s, clave);
    OrdenaPermuta(s, clave);
    Unicidad(r, Ordena(s, clave), clave);
  }
}
