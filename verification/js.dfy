/** The slice of JavaScript's value semantics the browser code leans on:
    which values are falsy, what `typeof` answers, and whether a property
    read gives `undefined`. */
module Js {

  /** A value as the browser code receives it from `response.json()` or from a
      caller. Object fields and array elements are held already converted to
      strings, which is all the rendering ever does with them. */
  datatype Valor =
    | Indefinido
    | Nulo
    | Booleano(b: bool)
    | Numero(n: real)
    | NoEsNumero
    | Cadena(s: string)
    | Vector(elementos: seq<string>)
    | Objeto(campos: map<string, string>)

  /** The values `||`, `&&` and `if` treat as false. Every array and every
      object is truthy, however empty. */
  predicate Falso(v: Valor)
  {
    match v
    case Indefinido => true
    case Nulo => true
    case Booleano(b) => !b
    case Numero(n) => n == 0.0
    case NoEsNumero => true
    case Cadena(s) => s == ""
    case Vector(_) => false
    case Objeto(_) => false
  }

  /** The answer of `typeof v`; arrays and `null` answer "object" too. */
  function TipoDe(v: Valor): string
  {
    match v
    case Indefinido => "undefined"
    case Nulo => "object"
    case Booleano(_) => "boolean"
    case Numero(_) => "number"
    case NoEsNumero => "number"
    case Cadena(_) => "string"
    case Vector(_) => "object"
    case Objeto(_) => "object"
  }

  /** `typeof v[nombre] !== "undefined"`, for values whose property can be read.
      Only an object that holds the key has it; strings and arrays carry none of
      the payload's field names. */
  predicate TieneCampo(v: Valor, nombre: string)
  {
    v.Objeto? && nombre in v.campos
  }
}
