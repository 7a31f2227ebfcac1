/** String helpers shared by the renderer, the filters and the sorts:
    `Array.prototype.join`, JavaScript's `<` on strings, an ASCII `toLowerCase`,
    and the small facts about prefixes and first occurrences that the
    round-trip proofs of the table need. */
module Cadenas {

  /** `partes.join(sep)`: the parts in order with `sep` between neighbours. */
  function Une(partes: seq<string>, sep: string): string
  {
    if |partes| == 0 then ""
    else if |partes| == 1 then partes[0]
    else partes[0] + sep + Une(partes[1..], sep)
  }

  /** Joining never introduces a character that neither a part nor the separator holds. */
  lemma {:induction false} UneSinCaracter(partes: seq<string>, sep: string, c: char)
    requires c !in sep
    requires forall i :: 0 <= i < |partes| ==> c !in partes[i]
    ensures c !in Une(partes, sep)
  {
    if |partes| > 1 {
      UneSinCaracter(partes[1..], sep, c);
    }
  }

  /** `p` is a prefix of `s`. */
  predicate EmpiezaCon(s: string, p: string)
  {
    |p| <= |s| && s[..|p|] == p
  }

  /** The two halves of `a + b` are `a` and `b`. */
  lemma Partes(a: string, b: string)
    ensures EmpiezaCon(a + b, a)
    ensures (a + b)[|a|..] == b
  {
    assert (a + b)[..|a|] == a;
  }

  lemma Asocia(a: string, b: string, c: string)
    ensures (a + b) + c == a + (b + c)
  {
  }

  /** `t` occurs somewhere inside `s` (JavaScript's `s.search(t) >= 0` for a literal `t`). */
  predicate Contiene(s: string, t: string)
  {
    exists i :: 0 <= i <= |s| && EmpiezaCon(s[i..], t)
  }

  /** `t` occurs in any string built as `a + t + b`. */
  lemma ContieneEnMedio(a: string, t: string, b: string)
    ensures Contiene(a + t + b, t)
  {
    var s := a + t + b;
    assert s[|a|..] == t + b;
    assert EmpiezaCon(s[|a|..], t);
  }

  /** Index of the first `c` in `s`, or `|s|` when there is none. */
  function Indice(s: string, c: char): (k: nat)
    ensures k <= |s|
    ensures k < |s| ==> s[k] == c
    ensures forall i :: 0 <= i < k ==> s[i] != c
  {
    if |s| == 0 then 0
    else if s[0] == c then 0
    else
      1 + Indice(s[1..], c)
  }

  /** When `a` has no `c` and `b` starts with `c`, the first `c` of `a + b` is where `b` starts. */
  lemma IndiceTrasPrefijo(a: string, b: string, c: char)
    requires c !in a
    requires |b| > 0 && b[0] == c
    ensures Indice(a + b, c) == |a|
  {
    var s := a + b;
    assert forall i :: 0 <= i < |a| ==> s[i] == a[i] && a[i] in a;
    assert s[|a|] == c;
  }

  /** Lower-cases the ASCII letters `A`..`Z` and leaves every other character alone. */
  function MinusculaChar(c: char): char
  {
    if 'A' <= c <= 'Z' then (c as int + 32) as char else c
  }

  /** `s.toLowerCase()`, restricted to the ASCII letters. */
  function Minusculas(s: string): (r: string)
    ensures |r| == |s|
    ensures forall i :: 0 <= i < |r| ==> !('A' <= r[i] <= 'Z')
    ensures forall i :: 0 <= i < |s| && !('A' <= s[i] <= 'Z') ==> r[i] == s[i]
    ensures forall i :: 0 <= i < |s| && 'A' <= s[i] <= 'Z' ==> r[i] as int == s[i] as int + 32
  {
    seq(|s|, i requires 0 <= i < |s| => MinusculaChar(s[i]))
  }

  /** Lower-casing twice is lower-casing once. */
  lemma MinusculasIdempotente(s: string)
    ensures Minusculas(Minusculas(s)) == Minusculas(s)
  {
  }

  /** JavaScript's `a < b` on strings: lexicographic order of the characters,
      a proper prefix coming first. */
  predicate Menor(a: string, b: string)
  {
    if |a| == 0 then |b| > 0
    else if |b| == 0 then false
    else if a[0] == b[0] then Menor(a[1..], b[1..])
    else a[0] < b[0]
  }

  lemma {:induction false} MenorIrreflexivo(a: string)
    ensures !Menor(a, a)
  {
    if |a| > 0 {
      MenorIrreflexivo(a[1..]);
    }
  }

  lemma {:induction false} MenorAsimetrico(a: string, b: string)
    requires Menor(a, b)
    ensures !Menor(b, a)
  {
    if |a| > 0 && |b| > 0 && a[0] == b[0] {
      MenorAsimetrico(a[1..], b[1..]);
    }
  }

  lemma {:induction false} MenorTransitivo(a: string, b: string, c: string)
    requires Menor(a, b) && Menor(b, c)
    ensures Menor(a, c)
  {
    if |a| > 0 && |b| > 0 && |c| > 0 && a[0] == b[0] && b[0] == c[0] {
      MenorTransitivo(a[1..], b[1..], c[1..]);
    }
  }

  /** Two strings are equal or ordered one way or the other. */
  lemma {:induction false} MenorTricotomia(a: string, b: string)
    ensures a == b || Menor(a, b) || Menor(b, a)
  {
    if |a| > 0 && |b| > 0 && a[0] == b[0] {
      MenorTricotomia(a[1..], b[1..]);
      assert a == [a[0]] + a[1..] && b == [b[0]] + b[1..];
    }
  }
}
