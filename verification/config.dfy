/**
 The per-user tender filter configuration ("setting") edited by the settings
 form, and the frame predicates that say which part of a configuration an
 edit is allowed to change.
 */
module ConfigModel {
  import opened Wrappers

  /** The `nilai_proyek` record: a project value range. No `min <= max`
      relation is kept by the form, so none is imposed here. */
  datatype Range = Range(min: int, max: int)

  /** A configuration. `hbu` and `kbli` are `null` until the user types text. */
  datatype Config = Config(
    penyelenggaraProyek: seq<string>,
    jenisProyek: seq<string>,
    nilaiProyek: Range,
    hbu: Option<string>,
    kbli: Option<string>)

  /** The two ordered list fields. */
  datatype ListField = PenyelenggaraProyek | JenisProyek

  /** The two members of `nilai_proyek`. */
  datatype Bound = Min | Max

  /** The two free-text fields. */
  datatype TextField = Hbu | Kbli

  function List(c: Config, f: ListField): (xs: seq<string>)
  {
    match f
    case PenyelenggaraProyek => c.penyelenggaraProyek
    case JenisProyek => c.jenisProyek
  }

  function BoundValue(r: Range, b: Bound): (n: int)
  {
    match b
    case Min => r.min
    case Max => r.max
  }

  function Text(c: Config, t: TextField): (s: Option<string>)
  {
    match t
    case Hbu => c.hbu
    case Kbli => c.kbli
  }

  /** `r` agrees with `c` everywhere except possibly list field `f`. */
  predicate OnlyListChanged(c: Config, r: Config, f: ListField)
  {
    && (f != PenyelenggaraProyek ==> r.penyelenggaraProyek == c.penyelenggaraProyek)
    && (f != JenisProyek ==> r.jenisProyek == c.jenisProyek)
    && r.nilaiProyek == c.nilaiProyek
    && r.hbu == c.hbu
    && r.kbli == c.kbli
  }

  /** `r` agrees with `c` everywhere except possibly bound `b` of `nilai_proyek`. */
  predicate OnlyBoundChanged(c: Config, r: Config, b: Bound)
  {
    && r.penyelenggaraProyek == c.penyelenggaraProyek
    && r.jenisProyek == c.jenisProyek
    && (b != Min ==> r.nilaiProyek.min == c.nilaiProyek.min)
    && (b != Max ==> r.nilaiProyek.max == c.nilaiProyek.max)
    && r.hbu == c.hbu
    && r.kbli == c.kbli
  }

  /** `r` agrees with `c` everywhere except possibly text field `t`. */
  predicate OnlyTextChanged(c: Config, r: Config, t: TextField)
  {
    && r.penyelenggaraProyek == c.penyelenggaraProyek
    && r.jenisProyek == c.jenisProyek
    && r.nilaiProyek == c.nilaiProyek
    && (t != Hbu ==> r.hbu == c.hbu)
    && (t != Kbli ==> r.kbli == c.kbli)
  }

  /** The configuration spread `{ ...c, [f]: xs }`. */
  function WithList(c: Config, f: ListField, xs: seq<string>): (r: Config)
    ensures List(r, f) == xs
    ensures OnlyListChanged(c, r, f)
  {
    match f
    case PenyelenggaraProyek => c.(penyelenggaraProyek := xs)
    case JenisProyek => c.(jenisProyek := xs)
  }
}
