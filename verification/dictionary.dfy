/**
 * A `Dictionary<String, String>` as used for the outputs of a parallel step.
 *
 * The dictionary carries the comparer it was built with and its entries in
 * enumeration order; no two keys are equal under that comparer. A key keeps
 * the spelling it was first inserted with; a later write under another
 * spelling of the same key replaces only the value, and a new key goes last. The dictionary the
 * `Outputs` getter and the copy constructor build uses
 * `StringComparer.OrdinalIgnoreCase`; one built by a deserialiser uses the
 * default ordinal comparer. Case folding is ordinal upper-casing restricted
 * to ASCII letters.
 */
module Dictionaries {
  import opened Wrappers

  /** The default `StringComparer.Ordinal`, or `StringComparer.OrdinalIgnoreCase`. */
  datatype Comparer = Ordinal | OrdinalIgnoreCase

  function UpperChar(c: char): char {
    if 'a' <= c <= 'z' then (c as int - 32) as char else c
  }

  function Fold(s: string): (r: string)
    ensures |r| == |s|
  {
    seq(|s|, i requires 0 <= i < |s| => UpperChar(s[i]))
  }

  /** The comparison key of `s` under `cmp`. */
  function KeyOf(cmp: Comparer, s: string): string {
    match cmp
    case Ordinal => s
    case OrdinalIgnoreCase => Fold(s)
  }

  /** `a` and `b` address the same dictionary entry under `cmp`. */
  predicate KeysEqual(cmp: Comparer, a: string, b: string) {
    KeyOf(cmp, a) == KeyOf(cmp, b)
  }

  datatype Entry = Entry(key: string, value: string)

  ghost predicate NoDuplicateKeys(cmp: Comparer, entries: seq<Entry>) {
    forall i, j :: 0 <= i < j < |entries| ==> KeyOf(cmp, entries[i].key) != KeyOf(cmp, entries[j].key)
  }

  datatype Dictionary = Dictionary(comparer: Comparer, entries: seq<Entry>)

  /** A well-formed dictionary: no two keys are equal under its comparer. */
  type Dict = d: Dictionary | NoDuplicateKeys(d.comparer, d.entries) witness Dictionary(Ordinal, [])

  /** `new Dictionary<String, String>(cmp)` */
  function Empty(cmp: Comparer): Dict {
    Dictionary(cmp, [])
  }

  /** Position of the entry that `k` addresses under `cmp`, if any. */
  function Find(cmp: Comparer, d: seq<Entry>, k: string): (r: Option<nat>)
    ensures r.Some? ==> r.value < |d| && KeysEqual(cmp, d[r.value].key, k)
    ensures r.Some? ==> forall i :: 0 <= i < r.value ==> !KeysEqual(cmp, d[i].key, k)
    ensures r.None? <==> forall i :: 0 <= i < |d| ==> !KeysEqual(cmp, d[i].key, k)
  {
    if |d| == 0 then None
    else if KeysEqual(cmp, d[0].key, k) then Some(0)
    else match Find(cmp, d[1..], k)
      case Some(i) => assert d[1..][i] == d[i + 1]; Some(i + 1)
      case None => assert forall i :: 1 <= i < |d| ==> d[1..][i - 1] == d[i]; None
  }

  /** `TryGetValue(k, out v)`: the value stored under any key equal to `k`. */
  function Get(d: Dict, k: string): (r: Option<string>)
    ensures r.Some? <==> exists i :: 0 <= i < |d.entries| && KeysEqual(d.comparer, d.entries[i].key, k)
    ensures forall i :: 0 <= i < |d.entries| && KeysEqual(d.comparer, d.entries[i].key, k) ==>
              r == Some(d.entries[i].value)
  {
    match Find(d.comparer, d.entries, k)
    case Some(i) => Some(d.entries[i].value)
    case None => None
  }

  /** The indexer's setter `d[k] = v`. */
  function Set(d: Dict, k: string, v: string): (r: Dict)
    ensures r.comparer == d.comparer
    ensures Get(r, k) == Some(v)
    ensures forall k' :: !KeysEqual(d.comparer, k', k) ==> Get(r, k') == Get(d, k')
    ensures |r.entries| == if Get(d, k).Some? then |d.entries| else |d.entries| + 1
    ensures var i := Find(d.comparer, d.entries, k);
            i.Some? ==> r.entries == d.entries[i.value := Entry(d.entries[i.value].key, v)]
    ensures Find(d.comparer, d.entries, k).None? ==> r.entries == d.entries + [Entry(k, v)]
  {
    match Find(d.comparer, d.entries, k)
    case Some(i) => ReplaceReads(d, i, k, v); ReplaceValue(d, i, v)
    case None => AppendReads(d, k, v); Append(d, Entry(k, v))
  }

  /** Reads after replacing the value of the entry `k` addresses. */
  lemma ReplaceReads(d: Dict, i: nat, k: string, v: string)
    requires Find(d.comparer, d.entries, k) == Some(i)
    ensures Get(ReplaceValue(d, i, v), k) == Some(v)
    ensures forall k' :: !KeysEqual(d.comparer, k', k) ==> Get(ReplaceValue(d, i, v), k') == Get(d, k')
  {
    var r := ReplaceValue(d, i, v);
    forall k' | !KeysEqual(d.comparer, k', k)
      ensures Get(r, k') == Get(d, k')
    {
      assert Find(d.comparer, r.entries, k') == Find(d.comparer, d.entries, k');
    }
  }

  /** Reads after appending a key no entry has. */
  lemma AppendReads(d: Dict, k: string, v: string)
    requires Find(d.comparer, d.entries, k).None?
    ensures Get(Append(d, Entry(k, v)), k) == Some(v)
    ensures forall k' :: !KeysEqual(d.comparer, k', k) ==> Get(Append(d, Entry(k, v)), k') == Get(d, k')
  {
    var r := Append(d, Entry(k, v));
    forall k' | !KeysEqual(d.comparer, k', k)
      ensures Get(r, k') == Get(d, k')
    {
      assert !KeysEqual(d.comparer, k, k');
      assert Find(d.comparer, r.entries, k') == Find(d.comparer, d.entries, k');
    }
  }

  /** Replaces the value of entry `i`, keeping its key and every other entry. */
  function ReplaceValue(d: Dict, i: nat, v: string): (r: Dict)
    requires i < |d.entries|
    ensures r.comparer == d.comparer && r.entries == d.entries[i := Entry(d.entries[i].key, v)]
    ensures forall k :: Find(d.comparer, r.entries, k) == Find(d.comparer, d.entries, k)
  {
    var es := d.entries[i := Entry(d.entries[i].key, v)];
    assert forall j :: 0 <= j < |es| ==> es[j].key == d.entries[j].key;
    FindSameKeys(d.comparer, d.entries, es);
    Dictionary(d.comparer, es)
  }

  /** Appends an entry whose key no entry of `d` has. */
  function Append(d: Dict, e: Entry): (r: Dict)
    requires Find(d.comparer, d.entries, e.key).None?
    ensures r.comparer == d.comparer && r.entries == d.entries + [e]
    ensures Find(d.comparer, r.entries, e.key) == Some(|d.entries|)
    ensures forall k :: !KeysEqual(d.comparer, e.key, k) ==> Find(d.comparer, r.entries, k) == Find(d.comparer, d.entries, k)
  {
    FindAppend(d.comparer, d.entries, e);
    var es := d.entries + [e];
    assert es[|d.entries|] == e;
    assert forall i :: 0 <= i < |d.entries| ==> es[i] == d.entries[i];
    Dictionary(d.comparer, es)
  }

  /** Changing values without touching keys does not move any entry. */
  lemma {:induction false} FindSameKeys(cmp: Comparer, d1: seq<Entry>, d2: seq<Entry>)
    requires |d1| == |d2|
    requires forall i :: 0 <= i < |d1| ==> d1[i].key == d2[i].key
    ensures forall k :: Find(cmp, d1, k) == Find(cmp, d2, k)
    decreases |d1|
  {
    if |d1| > 0 {
      FindSameKeys(cmp, d1[1..], d2[1..]);
      forall k ensures Find(cmp, d1, k) == Find(cmp, d2, k) {
        assert KeysEqual(cmp, d1[0].key, k) == KeysEqual(cmp, d2[0].key, k);
      }
    }
  }

  /** Appending an entry leaves the position of every other key as it was. */
  lemma {:induction false} FindAppend(cmp: Comparer, d: seq<Entry>, e: Entry)
    ensures forall k :: !KeysEqual(cmp, e.key, k) ==> Find(cmp, d + [e], k) == Find(cmp, d, k)
    decreases |d|
  {
    if |d| > 0 {
      assert (d + [e])[1..] == d[1..] + [e];
      FindAppend(cmp, d[1..], e);
    }
  }

  /** `d.Add(k, v)`: `None` stands for the `ArgumentException` thrown when `k` is already present. */
  function Add(d: Dict, k: string, v: string): (r: Option<Dict>)
    ensures r.None? <==> Get(d, k).Some?
    ensures r.Some? ==> r.value == Dictionary(d.comparer, d.entries + [Entry(k, v)])
  {
    match Find(d.comparer, d.entries, k)
    case Some(_) => None
    case None => Some(Dictionary(d.comparer, d.entries + [Entry(k, v)]))
  }

  /** Adds `pairs` one by one in order, failing on the first key already present. */
  function AddAll(d: Dict, pairs: seq<Entry>): Option<Dict>
    decreases |pairs|
  {
    if |pairs| == 0 then Some(d)
    else match Add(d, pairs[0].key, pairs[0].value)
      case Some(d') => AddAll(d', pairs[1..])
      case None => None
  }

  /** Adding a list whose keys stay distinct never fails and appends the list as it is. */
  lemma {:induction false} AddAllRebuilds(d: Dict, pairs: seq<Entry>)
    requires NoDuplicateKeys(d.comparer, d.entries + pairs)
    ensures AddAll(d, pairs) == Some(Dictionary(d.comparer, d.entries + pairs))
    decreases |pairs|
  {
    if |pairs| == 0 {
      assert d.entries + pairs == d.entries;
    } else {
      var e := pairs[0];
      assert (d.entries + pairs)[|d.entries|] == e;
      forall i | 0 <= i < |d.entries|
        ensures !KeysEqual(d.comparer, d.entries[i].key, e.key)
      {
        assert (d.entries + pairs)[i] == d.entries[i];
      }
      var d' := Dictionary(d.comparer, d.entries + [e]);
      assert Add(d, e.key, e.value) == Some(d');
      assert d'.entries + pairs[1..] == d.entries + pairs;
      AddAllRebuilds(d', pairs[1..]);
    }
  }

  /** Adding a list that brings two equal keys together fails. */
  lemma {:induction false} AddAllFails(d: Dict, pairs: seq<Entry>)
    requires !NoDuplicateKeys(d.comparer, d.entries + pairs)
    ensures AddAll(d, pairs) == None
    decreases |pairs|
  {
    if |pairs| > 0 {
      var e := pairs[0];
      if Find(d.comparer, d.entries, e.key).None? {
        var d' := Dictionary(d.comparer, d.entries + [e]);
        assert (d.entries + [e]) + pairs[1..] == d.entries + pairs;
        AddAllFails(d', pairs[1..]);
      }
    }
  }

  /**
   * `new Dictionary<String, String>(src, cmp)`: a fresh dictionary with
   * comparer `cmp`, filled by adding every entry of `src` in order. `None`
   * stands for the `ArgumentException` thrown when two keys of `src` are
   * equal under `cmp`; otherwise the copy holds exactly the entries of `src`.
   */
  function CopyWith(cmp: Comparer, src: Dict): (r: Option<Dict>)
    ensures r.Some? <==> NoDuplicateKeys(cmp, src.entries)
    ensures r.Some? ==> r.value == Dictionary(cmp, src.entries)
  {
    AddAllIntoEmpty(cmp, src.entries);
    AddAll(Empty(cmp), src.entries)
  }

  /** Filling an empty dictionary succeeds exactly when the keys are distinct under its comparer. */
  lemma AddAllIntoEmpty(cmp: Comparer, pairs: seq<Entry>)
    ensures AddAll(Empty(cmp), pairs).Some? <==> NoDuplicateKeys(cmp, pairs)
    ensures AddAll(Empty(cmp), pairs).Some? ==> AddAll(Empty(cmp), pairs).value == Dictionary(cmp, pairs)
  {
    assert Empty(cmp).entries + pairs == pairs;
    if NoDuplicateKeys(cmp, pairs) {
      AddAllRebuilds(Empty(cmp), pairs);
    } else {
      AddAllFails(Empty(cmp), pairs);
    }
  }

  /** Copying a dictionary with its own comparer always succeeds and gives it back. */
  lemma CopySameComparer(src: Dict)
    ensures CopyWith(src.comparer, src) == Some(src)
  {
  }

  /** An ordinal dictionary holding both `a` and `A` cannot be copied into an ignore-case one. */
  lemma CaseVariantsDoNotCopy()
    ensures var src := Dictionary(Ordinal, [Entry("a", "1"), Entry("A", "2")]);
            && NoDuplicateKeys(Ordinal, src.entries)
            && CopyWith(OrdinalIgnoreCase, src) == None
  {
    var src := Dictionary(Ordinal, [Entry("a", "1"), Entry("A", "2")]);
    assert "a"[0] == 'a' && "A"[0] == 'A';
    assert Fold("a")[0] == 'A' == Fold("A")[0];
    assert Fold("a") == Fold("A");
    assert KeyOf(OrdinalIgnoreCase, src.entries[0].key) == KeyOf(OrdinalIgnoreCase, src.entries[1].key);
  }

  /** `Find` looks only at the comparison key. */
  lemma {:induction false} FindByKey(cmp: Comparer, d: seq<Entry>, a: string, b: string)
    requires KeysEqual(cmp, a, b)
    ensures Find(cmp, d, a) == Find(cmp, d, b)
    decreases |d|
  {
    if |d| > 0 {
      FindByKey(cmp, d[1..], a, b);
      if KeysEqual(cmp, d[0].key, a) {
        assert KeysEqual(cmp, d[0].key, b);
      } else {
        assert !KeysEqual(cmp, d[0].key, b);
      }
    }
  }

  /** Keys equal under the dictionary's comparer read and write the same entry. */
  lemma SpellingsShareEntry(d: Dict, a: string, b: string, v: string)
    requires KeysEqual(d.comparer, a, b)
    ensures Get(d, a) == Get(d, b)
    ensures Get(Set(d, a, v), b) == Some(v)
  {
  }
}
