/**
 What the form shows for a list field: one removable chip per entry, keyed by
 the entry's index in the stored list, and no chip for an empty string. The
 stored list is never filtered; only the view skips `""`.
 */
module SettingView {

  /** One `EditableItem`: its `itemKey` (index in the stored list) and label. */
  datatype Chip = Chip(key: nat, text: string)

  /** Every chip in `r` points at a non-empty entry of `xs` at or after
      `from` and is labelled with that entry. */
  predicate KeysValid(xs: seq<string>, from: nat, r: seq<Chip>)
  {
    forall k :: 0 <= k < |r| ==> from <= r[k].key < |xs| && xs[r[k].key] == r[k].text && r[k].text != ""
  }

  /** The chips of `r` are in strictly increasing key order. */
  predicate Ascending(r: seq<Chip>)
  {
    forall k, l :: 0 <= k < l < |r| ==> r[k].key < r[l].key
  }

  /** Every non-empty entry of `xs` at or after `from` has a chip in `r`. */
  predicate Covers(xs: seq<string>, from: nat, r: seq<Chip>)
  {
    forall j :: from <= j < |xs| && xs[j] != "" ==> exists k :: 0 <= k < |r| && r[k].key == j
  }

  /** The chips for entries `from..` of `xs`, in list order. */
  function ChipsFrom(xs: seq<string>, from: nat): (r: seq<Chip>)
    requires from <= |xs|
    decreases |xs| - from
    ensures |r| <= |xs| - from
    ensures KeysValid(xs, from, r)
    ensures Ascending(r)
    ensures Covers(xs, from, r)
  {
    if from == |xs| then []
    else
      var rest := ChipsFrom(xs, from + 1);
      if xs[from] == "" then
        SkipEmptyEntry(xs, from, rest);
        rest
      else
        PrependChip(xs, from, rest);
        [Chip(from, xs[from])] + rest
  }

  /** An empty entry needs no chip: the chips after it cover from it on. */
  lemma SkipEmptyEntry(xs: seq<string>, from: nat, rest: seq<Chip>)
    requires from < |xs| && xs[from] == ""
    requires KeysValid(xs, from + 1, rest) && Covers(xs, from + 1, rest)
    ensures KeysValid(xs, from, rest) && Covers(xs, from, rest)
  {
  }

  /** A chip for a non-empty entry, put before the chips of the later
      entries, keeps all three properties. */
  lemma PrependChip(xs: seq<string>, from: nat, rest: seq<Chip>)
    requires from < |xs| && xs[from] != ""
    requires KeysValid(xs, from + 1, rest) && Ascending(rest) && Covers(xs, from + 1, rest)
    ensures var r := [Chip(from, xs[from])] + rest;
            KeysValid(xs, from, r) && Ascending(r) && Covers(xs, from, r)
  {
    var r := [Chip(from, xs[from])] + rest;
    assert forall k :: 0 < k < |r| ==> r[k] == rest[k - 1];
    forall j | from <= j < |xs| && xs[j] != ""
      ensures exists k :: 0 <= k < |r| && r[k].key == j
    {
      if j == from {
        assert r[0].key == j;
      } else {
        var k :| 0 <= k < |rest| && rest[k].key == j;
        assert r[k + 1].key == j;
      }
    }
  }

  /** The chips shown for a whole list field. */
  function Chips(xs: seq<string>): (r: seq<Chip>)
    ensures KeysValid(xs, 0, r)
    ensures Ascending(r)
    ensures Covers(xs, 0, r)
  {
    ChipsFrom(xs, 0)
  }

  /** The labels of a list's chips: the list with every `""` filtered out. */
  function Labels(cs: seq<Chip>): (labels: seq<string>)
  {
    if |cs| == 0 then [] else [cs[0].text] + Labels(cs[1..])
  }

  /** Reference definition of the display filter `xs.filter(x => x !== "")`. */
  function NonEmpty(xs: seq<string>): (r: seq<string>)
    ensures "" !in r
    ensures forall x :: x in r <==> x in xs && x != ""
  {
    if |xs| == 0 then []
    else if xs[0] == "" then NonEmpty(xs[1..])
    else [xs[0]] + NonEmpty(xs[1..])
  }

  /** The chip labels, read in order, are exactly the non-empty entries. */
  lemma {:induction false} ChipLabelsAreNonEmptyEntries(xs: seq<string>, from: nat)
    requires from <= |xs|
    decreases |xs| - from
    ensures Labels(ChipsFrom(xs, from)) == NonEmpty(xs[from..])
  {
    if from < |xs| {
      ChipLabelsAreNonEmptyEntries(xs, from + 1);
      assert xs[from..][1..] == xs[from + 1..];
      var rest := ChipsFrom(xs, from + 1);
      if xs[from] != "" {
        var cs := [Chip(from, xs[from])] + rest;
        assert ChipsFrom(xs, from) == cs;
        assert cs[1..] == rest;
        assert Labels(cs) == [xs[from]] + Labels(rest);
      } else {
        assert ChipsFrom(xs, from) == rest;
      }
    }
  }
}
