# Plantilla front end: rendering, filtering, sorting and payload fallback

This project models the pure logic of the `Plantilla` namespace of the
persona-records front end (`front-end/static-files/js/ms-plantilla.js`). Once
the calls to the gateway and to the content region are stripped away, that
logic has four parts:

- **Table rendering.** `cabeceraTable`, `cabeceraTableNombres`, `cuerpoTr`,
  `cuerpoTrNombres` and `pieTable` are modelled in module `Tabla`, character
  for character as their template literals write them. `imprime`,
  `imprimeNombres` and `imprimeMostrar` assemble header, rows and footer into
  the `(title, html)` pair handed to `Frontend.Article.actualizar`.
  `LecturaTabla` holds a reader for that markup. It is used to state that a
  listing shows exactly one row per record, in order, with that record's cells,
  for records whose shown fields hold no `<` and whose identifier holds no `"`.
- **Client-side filters.** Module `Filtros` models `Array.prototype.filter`
  and the predicates of `recuperaBuscar`, `recuperaBuscarTip` and
  `recuperaBuscarMas`.
- **Case-insensitive sorts.** Module `Orden` holds the comparator and a stable
  sort on it. It proves the sort is a sorted permutation, that each key's
  records keep their input order, and that these properties determine the
  result, so any stable host sort gives the same array. `OrdenPersonas`
  instantiates this for the three alphabetic listings: by `nombre`, by
  `data[campo]`, and by `data[campo][campo1]`.
- **Payload fallback.** Module `Carga` covers `mostrarHome` and
  `mostrarAcercaDe`. Called as methods, they replace a falsy, non-object or
  incomplete payload with `dDescargadosNulos` before showing it. Called back
  by `descargarRuta`, as `procesarHome` and `procesarAcercaDe` arrange, that
  replacement throws instead.

Supporting modules:
- `Js` models truthiness, `typeof` and property presence.
- `Cadenas` models `join`, `toLowerCase` restricted to ASCII, and
  JavaScript's `<` on strings.
- `Personas` holds the record.
- `Wrappers` holds `Option`. `None` stands for a comparator or a callback
  that threw, or a reader that failed.

Modelling choices:
- Record fields are held as already-stringified strings.
  `aniosParticipacionMundial` is a sequence of strings, because the code calls
  `.filter` on it. Rendering it in `${}` joins it with commas.
- `p.ref['@ref'].id` is the record's `id`.
- The network call, `response.json()`, `alert`, `console` and the DOM are
  outside the model. The fetched JSON is an input value, and the call to the
  content region is the returned `Articulo`.

## Model

| member | source | states |
|---|---|---|
| Tabla.CuerpoTrEsFila | front-end/static-files/js/ms-plantilla.js:236-254 | The full row opens with `<tr title="` and the identifier, then holds exactly seven cells in this order: id, nombre, " "+apellido, `calle,localidad,provincia,pais`, the years joined by commas, número, tipo. It closes with `</tr>`. |
| Tabla.CuerpoTrNombresEsFila | front-end/static-files/js/ms-plantilla.js:256-267 | The names-only row is the identifier as title followed by exactly three cells: id, nombre, " "+apellido. No other field enters it. |
| Tabla.Acumula | front-end/static-files/js/ms-plantilla.js:287-289 | The `forEach` that appends one row per record leaves the starting text followed by the rows of all records in order. |
| Tabla.ConcatenaEsUne | front-end/static-files/js/ms-plantilla.js:288 | Appending the rows one after another gives the same text as joining them with an empty separator, so the listing body is `rows.join("")`. |
| Tabla.Imprime | front-end/static-files/js/ms-plantilla.js:284-294 | The full listing is titled "Listado de personas". Its html is the seven-column header, then the concatenated rows of the records in order, then the footer `</tbody></table>`. An empty collection gives header followed by footer. |
| Tabla.ImprimeNombres | front-end/static-files/js/ms-plantilla.js:308-318 | The names-only listing is titled "Listado de nombre de personas". Its html is the three-column header, then the names-only rows in order, then the footer. An empty collection gives header followed by footer. |
| Tabla.ImprimeMostrar | front-end/static-files/js/ms-plantilla.js:296-305 | Showing one record is titled "Persona mostrada". Its html is exactly the full listing of that record alone. |
| Tabla.ImprimeConcatena | front-end/static-files/js/ms-plantilla.js:284-294 | Listing two collections together puts the rows of the first before the rows of the second, between a single header and a single footer. |
| LecturaTabla.LeeCeldasDeCeldas | front-end/static-files/js/ms-plantilla.js:245-253 | A run of cells followed by the row's end reads back as exactly those cells, provided no cell holds `<`. Reading stops right after the row. |
| LecturaTabla.ImprimeSeLee | front-end/static-files/js/ms-plantilla.js:284-294 | Take records with no `<` in any field and no `"` in the identifier. Their full listing reads back as one row per record, in input order, titled with its identifier and holding its seven cells. Nothing else is read. |
| LecturaTabla.ImprimeNombresSeLee | front-end/static-files/js/ms-plantilla.js:308-318 | Take records with no `<` in identifier, nombre or apellido and no `"` in the identifier. Their names-only listing reads back as one row per record, in input order, holding exactly identifier, nombre and " "+apellido. |
| Filtros.FiltraSubsecuencia | front-end/static-files/js/ms-plantilla.js:156 | What `filter` keeps is a subsequence of the input, in input order, and every kept element satisfies the predicate. |
| Filtros.FiltraPertenece | front-end/static-files/js/ms-plantilla.js:156 | An element is in the filtered array exactly when it is in the input and satisfies the predicate. |
| Filtros.FiltraCuenta | front-end/static-files/js/ms-plantilla.js:156 | An element that satisfies the predicate occurs in the output as often as in the input. Any other element does not occur at all. |
| Filtros.FiltraConcatena | front-end/static-files/js/ms-plantilla.js:156 | Filtering a concatenation is the concatenation of the filtered parts. |
| Filtros.BuscaNombre | front-end/static-files/js/ms-plantilla.js:156 | The search by name keeps exactly the records whose `nombre` equals the argument, as often as they occur and in their order. The result is empty exactly when no record has that name, and always for an empty input. |
| Filtros.BuscaAlguno | front-end/static-files/js/ms-plantilla.js:181 | A record is kept exactly when its nombre, tipo, número or calle equals the corresponding argument. Kept records stay in order with their multiplicity. The result is empty exactly when no record matches any of the four. |
| Filtros.AniosIguales | front-end/static-files/js/ms-plantilla.js:206 | The inner `filter` on the years is non-empty exactly when the requested year is among them. |
| Filtros.BuscaTodos | front-end/static-files/js/ms-plantilla.js:206 | As written, a record is kept exactly when nombre, localidad and tipo match, with the multiplicity it had and in input order. The year plays no part, because the fourth operand is an array and every array is truthy. |
| Filtros.BuscaTodosIgnoraAnio | front-end/static-files/js/ms-plantilla.js:206 | As written, the search gives the same result whatever year is requested. |
| Filtros.BuscaTodosContraejemplo | front-end/static-files/js/ms-plantilla.js:206 | A record from 2018 is kept by the search for 2022 as written. The corrected search drops it. |
| Filtros.BuscaTodosCorregido | front-end/static-files/js/ms-plantilla.js:206 | A record is kept exactly when nombre, localidad and tipo match and the requested year is among its years. Kept records stay in order with their multiplicity. |
| Cadenas.Minusculas | front-end/static-files/js/ms-plantilla.js:344-345 | Lower-casing keeps the length. It turns each capital `A`..`Z` into the letter 32 code points above it, its lower-case partner, and changes no other character. |
| Cadenas.MinusculasIdempotente | front-end/static-files/js/ms-plantilla.js:344-345 | Lower-casing an already lower-cased key changes nothing, so the comparator's keys are fixed points of `toLowerCase`. |
| Cadenas.MenorTransitivo | front-end/static-files/js/ms-plantilla.js:347-352 | JavaScript's `<` on strings is transitive. |
| Cadenas.MenorTricotomia | front-end/static-files/js/ms-plantilla.js:347-352 | For any two strings, they are equal or one is `<` the other. |
| Orden.Compara | front-end/static-files/js/ms-plantilla.js:343-354 | The comparator answers only -1, 0 or 1. It answers -1 exactly when the lower-cased first key is `<` the second, 1 exactly when the second is `<` the first, and 0 exactly when the lower-cased keys are equal. |
| Orden.InsertaPermuta | front-end/static-files/js/ms-plantilla.js:343-354 | Inserting a record into an array gives the old records plus exactly that one, counted with multiplicity. |
| Orden.InsertaOrdenada | front-end/static-files/js/ms-plantilla.js:343-354 | Inserting a record into an array the comparator finds in order gives an array it still finds in order. |
| Orden.InsertaEstable | front-end/static-files/js/ms-plantilla.js:343-354 | The inserted record lands behind every record with the same lower-cased key. Records of other keys keep their order. |
| Orden.OrdenaPermuta | front-end/static-files/js/ms-plantilla.js:343-354 | The sort returns a permutation of its input: every record, with its multiplicity, and nothing else. |
| Orden.OrdenaOrdenada | front-end/static-files/js/ms-plantilla.js:343-354 | The sort returns an array the comparator finds in order: no record compares above a later one. |
| Orden.OrdenaEstable | front-end/static-files/js/ms-plantilla.js:343-354 | For every lower-cased key, the records with that key appear in the output in the order they had in the input. |
| Orden.Unicidad | front-end/static-files/js/ms-plantilla.js:343-354 | Two sorted arrays that hold, key by key, the same records in the same order are equal. |
| Orden.OrdenaUnica | front-end/static-files/js/ms-plantilla.js:343-354 | Any sorted arrangement of the input that keeps each key's records in input order is the one the model computes. So a stable host sort with this comparator returns exactly this result. |
| OrdenPersonas.OrdenaPor | front-end/static-files/js/ms-plantilla.js:343-354 | Sorting records by a key gives a permutation that is sorted case-insensitively and stable for every key. |
| OrdenPersonas.OrdenaPorNombre | front-end/static-files/js/ms-plantilla.js:343-354 | The listing by name is a permutation of the records, sorted by lower-cased `nombre`, with equal names in input order. |
| OrdenPersonas.OrdenaPorNombreEjemplo | front-end/static-files/js/ms-plantilla.js:343-354 | Sorting the names "María", "juan", "Pedro" gives "juan", "María", "Pedro". |
| OrdenPersonas.CampoTextoDe | front-end/static-files/js/ms-plantilla.js:428-429 | A property name designates a string field exactly when it is the name of one: nombre, apellido, numeroParticipacionesOlimpicas or tipo. |
| OrdenPersonas.OrdenaPorCampo | front-end/static-files/js/ms-plantilla.js:427-438 | For a string field, the result is a stable, sorted permutation on that field. For any other name with two or more records, the comparator throws and nothing is produced. With fewer than two records, the comparator is never called and the records come back unchanged. |
| OrdenPersonas.CampoDireccionDe | front-end/static-files/js/ms-plantilla.js:463-464 | `data[campo][campo1]` designates an address field exactly when `campo` is "direccion" and `campo1` names one of calle, localidad, provincia or pais. |
| OrdenPersonas.OrdenaPorSubcampo | front-end/static-files/js/ms-plantilla.js:462-473 | For an address field, the result is a stable, sorted permutation on that field. Otherwise, with two or more records, the comparator throws and nothing is produced. With fewer than two, the records come back unchanged. |
| Carga.Previo | front-end/static-files/js/ms-plantilla.js:56-59 | The first two replacements keep the payload exactly when it is truthy and `typeof` answers "object". Otherwise they give the null record. Either way an object or array is left. |
| Carga.MostrarHome | front-end/static-files/js/ms-plantilla.js:54-65 | The home page is titled "Plantilla Home". It shows the payload's `mensaje` when the payload is an object holding one, and "Datos Descargados No válidos" otherwise. |
| Carga.MostrarHomeComoRetrollamada | front-end/static-files/js/ms-plantilla.js:100-102 | As `procesarHome` runs it, through a plain call in strict mode, the home page throws exactly when the payload lacks `mensaje`, because every fallback reads `this.dDescargadosNulos` with `this` undefined. Otherwise it shows the same page as a method call. |
| Carga.NulosCompleto | front-end/static-files/js/ms-plantilla.js:15-20 | The null record is truthy, is an object and holds all four fields, so falling back to it is final. |
| Carga.Normalizado | front-end/static-files/js/ms-plantilla.js:72-82 | After the three replacements of the "acerca de" page, the payload is kept exactly when it holds mensaje, autor, email and fecha. Otherwise the null record replaces it. |
| Carga.AcercaDeEsRellena | front-end/static-files/js/ms-plantilla.js:84-92 | The "acerca de" markup is five fixed literals with mensaje, autor, email and fecha between them. |
| Carga.HuecosDeRellena | front-end/static-files/js/ms-plantilla.js:84-92 | A template whose later literals start with `<`, filled with values free of `<`, reads back as exactly those values. |
| Carga.MostrarAcercaDe | front-end/static-files/js/ms-plantilla.js:70-94 | The page is titled "Plantilla Acerca de". Its markup is the template filled with the payload's four fields when all are present, and with the null record's otherwise. It contains the message shown. |
| Carga.MostrarAcercaDeComoRetrollamada | front-end/static-files/js/ms-plantilla.js:107-109 | As `procesarAcercaDe` runs it, the "acerca de" page throws exactly when the payload lacks one of mensaje, autor, email and fecha. Otherwise it shows the same page as a method call. |
| Carga.RetrollamadaContraejemplo | front-end/static-files/js/ms-plantilla.js:41-46 | A `null` response body shows the null record's message when the pages are called as methods, and throws on both pages when `descargarRuta` calls them back. |
| Carga.AcercaDeSeLee | front-end/static-files/js/ms-plantilla.js:70-94 | When no shown value holds `<`, the four values read back out of the "acerca de" markup are exactly the ones chosen. |

## Left out

- Network and error reporting are not modelled: `fetch`, `response.json()`, `alert` and `console.error` in `descargarRuta` and the `recupera*` functions. They are I/O. The fetched records are an input of each modelled operation. When no response arrives, the callback is never invoked, so there is nothing to model downstream.
- The numeric sort in `recuperaNumericamenteVarios` is not modelled. It compares `parseFloat` results, and NaN keys make the comparator inconsistent. That is floating-point behaviour with no order to verify.
- The one-line dispatch wrappers `listar*`, `mostrar` and `listarOrden*` only pass a modelled operation to a retrieval. Those operations name `Plantilla` rather than `this`, so they behave the same when called back, and their effect is covered by the operations they pass.
- `procesarHome` and `procesarAcercaDe` differ: they pass `this.mostrarHome` and `this.mostrarAcercaDe` unbound, and `descargarRuta` calls them as plain functions. `Carga.MostrarHomeComoRetrollamada` and `Carga.MostrarAcercaDeComoRetrollamada` model that path, where every fallback throws (see Findings).
- Carga.MostrarHome: assumes a method call, `Plantilla.mostrarHome(d)`, so that `this` is the namespace and the fallback to the null record is reached. Through `procesarHome` the fallback throws instead.
- Carga.MostrarAcercaDe: assumes a method call, `Plantilla.mostrarAcercaDe(d)`, for the same reason. Through `procesarAcercaDe` the fallback throws instead.
- `front-end/spec/server-spec.js` tests the server and holds no front-end logic. It is not part of this model.
- Cadenas.Minusculas: lower-cases only the ASCII letters `A`..`Z`. JavaScript's `toLowerCase` also maps accented and other non-ASCII capitals, and the model does not include Unicode case mapping.
- Cadenas.Menor: compares characters as code points. JavaScript compares UTF-16 code units, and the two orders differ only for characters above U+FFFF.
- Filtros.BuscaAlguno: compares `numeroParticipacionesOlimpicas` as a string. In stored records it is a number, and `===` against a string search argument would never match it.
- OrdenPersonas.OrdenaPorCampo: treats `numeroParticipacionesOlimpicas` as a string field, following the stringified-fields choice. A stored number has no `toLowerCase`, so sorting by that field would throw.
- OrdenPersonas.OrdenaPorSubcampo: returns nothing for every `campo` other than "direccion". Indexing a string field (`nombre["0"]`) or the years array (`aniosParticipacionMundial["0"]`) also yields a string. The host would then sort by that character or year, and those corners are not modelled.
- Record fields missing from the stored record are not modelled: every record is assumed to carry every field. What a missing field would do depends on where it is read:
  - A missing top-level scalar (`nombre`, `apellido`, `tipo`, `numeroParticipacionesOlimpicas`, the years) renders as the text "undefined" in `cuerpoTr` and `cuerpoTrNombres`.
  - A missing `direccion` throws a TypeError in `cuerpoTr` (`direc.calle`, line 249). In the filters it throws only when its operand is reached: at line 181 (`persona.data.direccion.calle`) when the nombre, tipo and número operands are all false, and at line 206 (`persona.data.direccion.localidad`) when nombre matches.
  - A missing `aniosParticipacionMundial` throws a TypeError in the filter of `recuperaBuscarMas` (`undefined.filter`, line 206) once nombre, localidad and tipo all match.
  - A missing sort key throws a TypeError in the comparators (`undefined.toLowerCase()`, lines 344, 428 and 463).
- Host sort and comparator: the sort in `Orden` is an insertion sort, not the host's algorithm. `Orden.OrdenaUnica` shows that any stable sort with this comparator produces the same array.
- Where the test file disagrees with the code, the model follows the code:
  - The compact `cuerpoTr` expectation (`front-end/static-files/js/ms-plantilla-spec.js:145-168`) has no line breaks and reads `calle` at the top level. The code's template has them and reads `d.direccion.calle`.
  - The `new Plantilla()` test (`front-end/static-files/js/ms-plantilla-spec.js:217-273`) does not match the object namespace.
  - The tests call the null record `datosDescargadosNulos`, while the code calls it `dDescargadosNulos`.

## Findings

| source | as written | input that shows it | evidently intended | confidence | as-written member | corrected member |
|---|---|---|---|---|---|---|
| front-end/static-files/js/ms-plantilla.js:101 | `procesarHome` passes `this.mostrarHome` unbound. `descargarRuta` calls it as a plain function in strict mode, so `this` is undefined and each fallback's read of `this.dDescargadosNulos` throws a TypeError. | The gateway answers with `null`, or with an object that has no `mensaje`: the page is never updated. | Fall back to the null record and show "Datos Descargados No válidos", as a method call does. | not executed | Carga.MostrarHomeComoRetrollamada | Carga.MostrarHome |
| front-end/static-files/js/ms-plantilla.js:108 | `procesarAcercaDe` passes `this.mostrarAcercaDe` unbound, with the same consequence for its three fallbacks. | The gateway answers with `null`, or with an object that lacks `fecha`: the page is never updated. | Show the null record's fields in the "acerca de" template. | not executed | Carga.MostrarAcercaDeComoRetrollamada | Carga.MostrarAcercaDe |
| front-end/static-files/js/ms-plantilla.js:206 | The fourth operand of `&&` is `aniosParticipacionMundial.filter(...)`. That is an array, and it is truthy even when empty, so the requested year never excludes a record. | A record with nombre "Ana", localidad "Jaén", tipo "Deportista" and years ["2018"], searched for year "2022": the search keeps it. | Keep a record only when the requested year is among its years (the inner filter is non-empty). | not executed | Filtros.BuscaTodosContraejemplo | Filtros.BuscaTodosCorregido |
