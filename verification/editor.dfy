/**
 The edit rules of the settings form: `setData` (append to a list field, set
 one bound of `nilai_proyek`, or set a text field) and `removeData` (remove a
 list entry by value with `indexOf` + `splice(idx, 1)`). Both are pure here:
 the form mutates the state array in place and then re-wraps it, which gives
 the working setting the same value as building a new configuration (the
 in-place change also reaches the bundled placeholder while it is still the
 working setting; `SettingSync.Mount` takes that placeholder as a parameter).
 */
module SettingEditor {
  import opened Wrappers
  import opened ConfigModel
  import opened JsArray

  /** One call of `setData`, with the field key and the `isArray` flag folded
      into the constructor. `SetBound` carries the already parsed integer. */
  datatype Edit =
    | AddItem(list: ListField, item: string)
    | SetBound(bound: Bound, value: int)
    | SetText(field: TextField, text: string)

  /** `setData`: the configuration after one edit. */
  function SetData(c: Config, e: Edit): (r: Config)
    ensures e.AddItem? ==> List(r, e.list) == List(c, e.list) + [e.item] && OnlyListChanged(c, r, e.list)
    ensures e.SetBound? ==> BoundValue(r.nilaiProyek, e.bound) == e.value && OnlyBoundChanged(c, r, e.bound)
    ensures e.SetText? ==> Text(r, e.field) == Some(e.text) && OnlyTextChanged(c, r, e.field)
  {
    match e
    case AddItem(f, v) => WithList(c, f, List(c, f) + [v])
    case SetBound(b, n) =>
      c.(nilaiProyek := match b
                        case Min => c.nilaiProyek.(min := n)
                        case Max => c.nilaiProyek.(max := n))
    case SetText(t, s) =>
      match t
      case Hbu => c.(hbu := Some(s))
      case Kbli => c.(kbli := Some(s))
  }

  /** `removeData`: `splice(indexOf(v), 1)` on list field `f`. A present value
      loses its first occurrence; an absent value makes `indexOf` answer -1,
      and the splice then drops the last entry of a non-empty list. */
  function RemoveData(c: Config, f: ListField, v: string): (r: Config)
    ensures OnlyListChanged(c, r, f)
    ensures v in List(c, f) ==> List(r, f) == RemoveFirst(List(c, f), v)
    ensures v !in List(c, f) && |List(c, f)| > 0 ==> List(r, f) == List(c, f)[..|List(c, f)| - 1]
    ensures |List(c, f)| == 0 ==> r == c
  {
    var xs := List(c, f);
    var r := WithList(c, f, SpliceOne(xs, IndexOf(xs, v)));
    if v in xs then SpliceAtIndexOfRemovesFirst(xs, v); r else r
  }

  /** Example (one instance of `RemoveData`'s absent-value case): with two
      entries listed, asking to remove a third drops the second entry. */
  lemma RemoveAbsentDropsLastExample(c: Config, f: ListField)
    requires List(c, f) == ["Jasa Lainnya", "Pengadaan Barang"]
    ensures List(RemoveData(c, f, "Pekerjaan Konstruksi"), f) == ["Jasa Lainnya"]
  {
  }

  /** Adding an item that was not listed and then removing it restores the
      configuration. */
  lemma AddThenRemoveNew(c: Config, f: ListField, v: string)
    requires v !in List(c, f)
    ensures RemoveData(SetData(c, AddItem(f, v)), f, v) == c
  {
    RemoveFirstAfterAppend(List(c, f), v);
  }

  /** Adding an item that was already listed and then removing it takes out
      the earlier copy; the new copy stays at the end. */
  lemma AddThenRemoveListed(c: Config, f: ListField, v: string)
    requires v in List(c, f)
    ensures List(RemoveData(SetData(c, AddItem(f, v)), f, v), f) == RemoveFirst(List(c, f), v) + [v]
    ensures OnlyListChanged(c, RemoveData(SetData(c, AddItem(f, v)), f, v), f)
  {
    RemoveFirstAfterAppend(List(c, f), v);
  }

  /** Two adds to the same list with no save in between keep both items, in
      the order they were added. */
  lemma AddsKeepOrder(c: Config, f: ListField, a: string, b: string)
    ensures List(SetData(SetData(c, AddItem(f, a)), AddItem(f, b)), f) == List(c, f) + [a, b]
  {
  }

  /** Setting `min` and setting `max` do not interfere: either order gives the
      same configuration. */
  lemma BoundsIndependent(c: Config, lo: int, hi: int)
    ensures SetData(SetData(c, SetBound(Min, lo)), SetBound(Max, hi))
         == SetData(SetData(c, SetBound(Max, hi)), SetBound(Min, lo))
    ensures SetData(SetData(c, SetBound(Min, lo)), SetBound(Max, hi)).nilaiProyek == Range(lo, hi)
  {
  }

  /** A scalar edit overwrites: the later of two edits to the same scalar
      field is the one that remains. */
  lemma ScalarEditsOverwrite(c: Config, e1: Edit, e2: Edit)
    requires || (e1.SetBound? && e2.SetBound? && e1.bound == e2.bound)
             || (e1.SetText? && e2.SetText? && e1.field == e2.field)
    ensures SetData(SetData(c, e1), e2) == SetData(c, e2)
  {
  }
}
