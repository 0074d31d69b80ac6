/** `simple_repr` (proteome_exchange/utils.py): the `__repr__` of every
    `Base` object, `ClassName(field=value, ...)`. */
module Reprs {
  import opened Wrappers
  import Text

  /** `DEFAULT_MAX_LEN_DISPLAY`. */
  const DEFAULT_MAX_LEN_DISPLAY: nat := 80

  /** `getattr(self, "MAX_LEN_DISPLAY", DEFAULT_MAX_LEN_DISPLAY)`: the class's
      own limit when it defines one. */
  function MaxLenDisplay(own: Option<nat>): (r: nat)
    ensures own.None? ==> r == DEFAULT_MAX_LEN_DISPLAY
    ensures own.Some? ==> r == own.value
  {
    own.GetOr(DEFAULT_MAX_LEN_DISPLAY)
  }

  /** What `simple_repr` needs to know of an attribute value. A float or any
      other non-string value carries the text that `"%0.4f"` or
      `pprint.pformat` produce for it. */
  datatype FieldValue =
    | Str(s: string)
    | Other(text: string)
    | NoneValue
    | CallableValue
    | SelfRef          // the object itself

  /** An attribute name and its value. */
  type Field = (string, FieldValue)

  /** The text of a string attribute before quoting: cut to `maxLen`
      characters followed by `...` when it is longer than `maxLen`. */
  function Shown(s: string, maxLen: nat): (r: string)
    ensures |s| <= maxLen ==> r == s
    ensures |s| > maxLen ==> |r| == maxLen + 3 && r[..maxLen] == s[..maxLen] && r[maxLen..] == "..."
  {
    if |s| > maxLen then s[..maxLen] + "..." else s
  }

  /** `formatvalue`: strings are quoted by `quote` (Python's `repr`) after
      truncation; other values show their rendered text. */
  function FormatValue(v: FieldValue, maxLen: nat, quote: string -> string): (r: string)
    requires v.Str? || v.Other?
    ensures v.Str? && |v.s| <= maxLen ==> r == quote(v.s)
    ensures v.Str? && |v.s| > maxLen ==> r == quote(v.s[..maxLen] + "...")
    ensures v.Other? ==> r == v.text
  {
    if v.Str? then quote(Shown(v.s, maxLen)) else v.text
  }

  /** Whether a field is listed: not private, not callable, not `None`. */
  predicate Listed(f: Field) {
    !Text.StartsWith(f.0, "_") && !f.1.CallableValue? && !f.1.NoneValue?
  }

  /** One listed entry: `name=value`, or `(...)` for the object itself. */
  function Entry(f: Field, maxLen: nat, quote: string -> string): (r: string)
    requires Listed(f)
    ensures f.1.SelfRef? ==> r == "(...)"
    ensures f.1.Str? ==> r == f.0 + "=" + quote(Shown(f.1.s, maxLen))
    ensures f.1.Other? ==> r == f.0 + "=" + f.1.text
  {
    if f.1.SelfRef? then "(...)" else f.0 + "=" + FormatValue(f.1, maxLen, quote)
  }

  /** Fields in non-decreasing name order. */
  predicate SortedByName(fs: seq<Field>) {
    forall i, j :: 0 <= i < j < |fs| ==> Text.LexLe(fs[i].0, fs[j].0)
  }

  /** Inserts `f` before the first field whose name is not smaller. */
  function Insert(f: Field, fs: seq<Field>): seq<Field> {
    if fs == [] then [f]
    else if Text.LexLe(f.0, fs[0].0) then [f] + fs
    else [fs[0]] + Insert(f, fs[1..])
  }

  /** Insertion adds exactly `f`. */
  lemma {:induction false} InsertCount(f: Field, fs: seq<Field>)
    ensures multiset(Insert(f, fs)) == multiset(fs) + multiset{f}
  {
    if fs != [] && !Text.LexLe(f.0, fs[0].0) {
      InsertCount(f, fs[1..]);
      assert fs == [fs[0]] + fs[1..];
    }
  }

  /** Insertion keeps a sorted list sorted. */
  lemma {:induction false} InsertSorted(f: Field, fs: seq<Field>)
    requires SortedByName(fs)
    ensures SortedByName(Insert(f, fs))
  {
    if fs == [] {
    } else if Text.LexLe(f.0, fs[0].0) {
      var r := [f] + fs;
      forall j | 1 <= j < |r| ensures Text.LexLe(f.0, r[j].0) {
        if j > 1 { Text.LexLeTransitive(f.0, fs[0].0, fs[j - 1].0); }
      }
    } else {
      InsertSorted(f, fs[1..]);
      InsertCount(f, fs[1..]);
      var tail := Insert(f, fs[1..]);
      var r := [fs[0]] + tail;
      Text.LexLeTotal(f.0, fs[0].0);
      forall j | 1 <= j < |r| ensures Text.LexLe(fs[0].0, r[j].0) {
        assert r[j] == tail[j - 1];
        assert r[j] in multiset(tail);
        if r[j] != f {
          assert r[j] in multiset(fs[1..]);
          var k :| 0 <= k < |fs[1..]| && fs[1..][k] == r[j];
          assert fs[k + 1] == r[j];
        }
      }
    }
  }

  /** A field whose name is at most the first name goes in front. */
  lemma InsertFront(f: Field, g: Field, rest: seq<Field>)
    requires Text.LexLe(f.0, g.0)
    ensures Insert(f, [g] + rest) == [f, g] + rest
  {
    assert ([g] + rest)[0] == g;
  }

  /** A field whose name is above the first name goes behind it. */
  lemma InsertBehind(f: Field, g: Field, rest: seq<Field>)
    requires !Text.LexLe(f.0, g.0)
    ensures Insert(f, [g] + rest) == [g] + Insert(f, rest)
  {
    assert ([g] + rest)[0] == g;
    assert ([g] + rest)[1..] == rest;
  }

  /** Sorting a list with a first element inserts it into the sorted rest. */
  lemma SortCons(f: Field, rest: seq<Field>)
    ensures SortByName([f] + rest) == Insert(f, SortByName(rest))
  {
    assert ([f] + rest)[0] == f;
    assert ([f] + rest)[1..] == rest;
  }

  /** `sorted(items, key=lambda x: x[0])`. */
  function SortByName(fs: seq<Field>): seq<Field> {
    if fs == [] then [] else Insert(fs[0], SortByName(fs[1..]))
  }

  /** Sorting gives a permutation of the fields in name order. */
  lemma {:induction false} SortByNameSpec(fs: seq<Field>)
    ensures multiset(SortByName(fs)) == multiset(fs)
    ensures SortedByName(SortByName(fs))
  {
    if fs != [] {
      SortByNameSpec(fs[1..]);
      InsertCount(fs[0], SortByName(fs[1..]));
      InsertSorted(fs[0], SortByName(fs[1..]));
      assert fs == [fs[0]] + fs[1..];
    }
  }

  /** The listed fields, in the order given. */
  function ListedOnly(fs: seq<Field>): (r: seq<Field>)
    ensures forall i :: 0 <= i < |r| ==> Listed(r[i])
  {
    if fs == [] then []
    else if Listed(fs[|fs| - 1]) then ListedOnly(fs[..|fs| - 1]) + [fs[|fs| - 1]]
    else ListedOnly(fs[..|fs| - 1])
  }

  /** Keeping the listed fields keeps each of them as often as it occurs and
      drops every other one. */
  lemma {:induction false} ListedOnlyCount(fs: seq<Field>, f: Field)
    ensures multiset(ListedOnly(fs))[f] == if Listed(f) then multiset(fs)[f] else 0
  {
    if fs != [] {
      var init := fs[..|fs| - 1];
      ListedOnlyCount(init, f);
      assert fs == init + [fs[|fs| - 1]];
    }
  }

  /** A list of listed fields is kept whole. */
  lemma {:induction false} ListedOnlyAll(fs: seq<Field>)
    requires forall i :: 0 <= i < |fs| ==> Listed(fs[i])
    ensures ListedOnly(fs) == fs
  {
    if fs != [] {
      ListedOnlyAll(fs[..|fs| - 1]);
    }
  }

  /** Keeping the listed fields keeps the order. */
  lemma {:induction false} ListedOnlySorted(fs: seq<Field>)
    requires SortedByName(fs)
    ensures SortedByName(ListedOnly(fs))
  {
    if fs != [] {
      var init := fs[..|fs| - 1];
      assert SortedByName(init);
      ListedOnlySorted(init);
      var last := fs[|fs| - 1];
      if Listed(last) {
        var r := ListedOnly(fs);
        forall i | 0 <= i < |r| - 1 ensures Text.LexLe(r[i].0, last.0) {
          ListedOnlyCount(init, r[i]);
          assert r[i] in multiset(ListedOnly(init));
          assert r[i] in multiset(init);
          var k :| 0 <= k < |init| && init[k] == r[i];
        }
      }
    }
  }

  /** The fields `simple_repr` lists, in the order it lists them: sorted
      first, then filtered. */
  function ListedFields(fs: seq<Field>): seq<Field> {
    ListedOnly(SortByName(fs))
  }

  /** The listed fields are exactly the public, non-callable, non-`None`
      fields, each once per occurrence, in name order. */
  lemma ListedFieldsSpec(fs: seq<Field>)
    ensures SortedByName(ListedFields(fs))
    ensures forall f :: multiset(ListedFields(fs))[f] == if Listed(f) then multiset(fs)[f] else 0
    ensures forall i :: 0 <= i < |ListedFields(fs)| ==> Listed(ListedFields(fs)[i])
  {
    SortByNameSpec(fs);
    ListedOnlySorted(SortByName(fs));
    forall f ensures multiset(ListedFields(fs))[f] == if Listed(f) then multiset(fs)[f] else 0 {
      ListedOnlyCount(SortByName(fs), f);
    }
  }

  /** The entries of the listed fields, one per field and in their order:
      `(...)` for the object itself, `name=` and the quoted, truncated text of
      a string, `name=` and the rendered text of any other value. */
  function Entries(fs: seq<Field>, maxLen: nat, quote: string -> string): (r: seq<string>)
    requires forall i :: 0 <= i < |fs| ==> Listed(fs[i])
    ensures |r| == |fs|
    ensures forall i :: 0 <= i < |fs| && fs[i].1.SelfRef? ==> r[i] == "(...)"
    ensures forall i :: 0 <= i < |fs| && fs[i].1.Str? ==> r[i] == fs[i].0 + "=" + quote(Shown(fs[i].1.s, maxLen))
    ensures forall i :: 0 <= i < |fs| && fs[i].1.Other? ==> r[i] == fs[i].0 + "=" + fs[i].1.text
  {
    seq(|fs|, i requires 0 <= i < |fs| => Entry(fs[i], maxLen, quote))
  }

  /** Nothing is listed when no field is public, non-callable and not `None`. */
  lemma ListedFieldsNone(fs: seq<Field>)
    ensures (forall i :: 0 <= i < |fs| ==> !Listed(fs[i])) ==> ListedFields(fs) == []
  {
    if forall i :: 0 <= i < |fs| ==> !Listed(fs[i]) {
      ListedFieldsSpec(fs);
    }
  }

  /** `simple_repr(self)` for an object of class `className` whose limit is
      `maxLen` and whose attributes are `fs`: `ClassName(`, the entries of the
      listed fields in name order separated by `", "`, and `)`; with nothing
      to list, `ClassName()`. */
  function SimpleRepr(className: string, maxLen: nat, fs: seq<Field>, quote: string -> string): (r: string)
    ensures (forall i :: 0 <= i < |fs| ==> !Listed(fs[i])) ==> r == className + "()"
    ensures |r| >= |className| + 2 && r[..|className| + 1] == className + "(" && r[|r| - 1] == ')'
    ensures r == className + "(" + Text.Join(Entries(ListedFields(fs), maxLen, quote), ", ") + ")"
  {
    ListedFieldsNone(fs);
    var body := Text.Join(Entries(ListedFields(fs), maxLen, quote), ", ");
    var r := className + "(" + body + ")";
    assert r[..|className| + 1] == className + "(";
    r
  }
}
