/**
 * The colour table of a palette as a value: an insertion-ordered list of
 * (colour name, colour string) entries, which is how a Python dict behaves.
 * Lookup, insert-or-overwrite, delete and the printed listing are functions
 * on that list; AsMap forgets the order and is the reference the operations
 * are checked against (a dict is a map from keys to values).
 */
module ColorTable {
  import opened Wrappers

  /** One entry of the table: a colour name and its colour string (hex or named). */
  datatype Entry = Entry(name: string, value: string)

  /** The table has at most one entry per colour name. */
  ghost predicate DistinctKeys(s: seq<Entry>)
  {
    forall i, j :: 0 <= i < j < |s| ==> s[i].name != s[j].name
  }

  /** Some entry of the table is named n. */
  ghost predicate HasKey(s: seq<Entry>, n: string)
  {
    exists i :: 0 <= i < |s| && s[i].name == n
  }

  /** A name is in a non-empty table when it heads it or is in the rest. */
  lemma HasKeyCons(s: seq<Entry>, n: string)
    requires s != []
    ensures HasKey(s, n) <==> s[0].name == n || HasKey(s[1..], n)
  {
    if HasKey(s[1..], n) {
      var i :| 0 <= i < |s[1..]| && s[1..][i].name == n;
      assert s[i + 1].name == n;
    }
    if HasKey(s, n) && s[0].name != n {
      var i :| 0 <= i < |s| && s[i].name == n;
      assert s[1..][i - 1].name == n;
    }
  }

  /** The table as a dictionary, without its order. */
  ghost function AsMap(s: seq<Entry>): map<string, string>
  {
    if s == [] then map[] else AsMap(s[1..])[s[0].name := s[0].value]
  }

  /** The value stored under n, or None when n is absent; a miss is not an error. */
  function Lookup(s: seq<Entry>, n: string): (r: Option<string>)
    ensures r.Some? <==> HasKey(s, n)
    ensures r.Some? ==> Entry(n, r.value) in s
  {
    if s == [] then None
    else if s[0].name == n then Some(s[0].value)
    else
      HasKeyCons(s, n);
      Lookup(s[1..], n)
  }

  /** Insert-or-overwrite: an existing entry for n keeps its place and gets
      the value v; a new name is appended at the end. */
  function Put(s: seq<Entry>, n: string, v: string): seq<Entry>
  {
    if s == [] then [Entry(n, v)]
    else if s[0].name == n then [Entry(n, v)] + s[1..]
    else [s[0]] + Put(s[1..], n, v)
  }

  /** Delete the entry for n; a missing n leaves the table as it is. */
  function Delete(s: seq<Entry>, n: string): seq<Entry>
  {
    if s == [] then []
    else if s[0].name == n then s[1..]
    else [s[0]] + Delete(s[1..], n)
  }

  /** The line printed for one entry. */
  function EntryLine(e: Entry): string
  {
    e.name + ": " + e.value
  }

  /** One line per entry, in table order. */
  function EntryLines(s: seq<Entry>): seq<string>
  {
    if s == [] then [] else EntryLines(s[..|s| - 1]) + [EntryLine(s[|s| - 1])]
  }

  /** What displaying the palette prints: an "is empty" notice, or a header
      followed by the entries. */
  function DisplayLines(paletteName: string, s: seq<Entry>): seq<string>
  {
    if s == [] then [paletteName + " is empty."]
    else ["Palette: " + paletteName] + EntryLines(s)
  }

  // ---------------------------------------------------------------------
  // The dictionary view

  lemma {:induction false} AsMapKeys(s: seq<Entry>, n: string)
    ensures n in AsMap(s) <==> HasKey(s, n)
  {
    if s != [] {
      AsMapKeys(s[1..], n);
      HasKeyCons(s, n);
    }
  }

  /** Lookup answers exactly what the dictionary holds. */
  lemma {:induction false} LookupAsMap(s: seq<Entry>, n: string)
    ensures Lookup(s, n) == if n in AsMap(s) then Some(AsMap(s)[n]) else None
  {
    if s != [] && s[0].name != n {
      LookupAsMap(s[1..], n);
    }
  }

  /** With distinct keys, the entry at position i is what Lookup finds for its name. */
  lemma {:induction false} LookupAt(s: seq<Entry>, i: int)
    requires DistinctKeys(s)
    requires 0 <= i < |s|
    ensures Lookup(s, s[i].name) == Some(s[i].value)
  {
    if i > 0 {
      assert s[0].name != s[i].name;
      assert s[1..][i - 1] == s[i];
      LookupAt(s[1..], i - 1);
    }
  }

  lemma {:induction false} DistinctTail(s: seq<Entry>)
    requires DistinctKeys(s) && s != []
    ensures DistinctKeys(s[1..]) && !HasKey(s[1..], s[0].name)
  {
    forall i | 0 <= i < |s[1..]| ensures s[1..][i].name != s[0].name {
      assert s[1..][i] == s[i + 1];
    }
  }

  // ---------------------------------------------------------------------
  // Insert-or-overwrite

  /** Put is the dictionary assignment m[n] := v. */
  lemma {:induction false} PutAsMap(s: seq<Entry>, n: string, v: string)
    ensures AsMap(Put(s, n, v)) == AsMap(s)[n := v]
  {
    if s != [] && s[0].name != n {
      PutAsMap(s[1..], n, v);
      assert Put(s, n, v)[1..] == Put(s[1..], n, v);
    }
    if s != [] && s[0].name == n {
      assert Put(s, n, v)[1..] == s[1..];
    }
  }

  /** A value is readable after it is written, overwrite or not. */
  lemma PutLookupSame(s: seq<Entry>, n: string, v: string)
    ensures Lookup(Put(s, n, v), n) == Some(v)
  {
    PutAsMap(s, n, v);
    LookupAsMap(Put(s, n, v), n);
  }

  /** Every other name reads as before. */
  lemma PutLookupOther(s: seq<Entry>, n: string, v: string, m: string)
    requires m != n
    ensures Lookup(Put(s, n, v), m) == Lookup(s, m)
  {
    PutAsMap(s, n, v);
    LookupAsMap(Put(s, n, v), m);
    LookupAsMap(s, m);
  }

  /** An existing name is overwritten where it stands: same length, same order. */
  lemma {:induction false} PutPresent(s: seq<Entry>, n: string, v: string, i: int)
    requires DistinctKeys(s)
    requires 0 <= i < |s| && s[i].name == n
    ensures Put(s, n, v) == s[i := Entry(n, v)]
  {
    if i > 0 {
      assert s[0].name != n;
      DistinctTail(s);
      assert s[1..][i - 1].name == n;
      PutPresent(s[1..], n, v, i - 1);
      assert s[i := Entry(n, v)] == [s[0]] + s[1..][i - 1 := Entry(n, v)];
    }
  }

  /** A new name is appended: the table grows by exactly that entry. */
  lemma {:induction false} PutAbsent(s: seq<Entry>, n: string, v: string)
    requires !HasKey(s, n)
    ensures Put(s, n, v) == s + [Entry(n, v)]
  {
    if s != [] {
      assert s[0].name != n;
      HasKeyCons(s, n);
      PutAbsent(s[1..], n, v);
      assert s == [s[0]] + s[1..];
    }
  }

  /** Insert-or-overwrite keeps the keys unique. */
  lemma PutDistinct(s: seq<Entry>, n: string, v: string)
    requires DistinctKeys(s)
    ensures DistinctKeys(Put(s, n, v))
    ensures |Put(s, n, v)| == if HasKey(s, n) then |s| else |s| + 1
  {
    if HasKey(s, n) {
      var i :| 0 <= i < |s| && s[i].name == n;
      PutPresent(s, n, v, i);
    } else {
      PutAbsent(s, n, v);
    }
  }

  // ---------------------------------------------------------------------
  // Delete

  /** A missing name: nothing changes. */
  lemma {:induction false} DeleteAbsent(s: seq<Entry>, n: string)
    requires !HasKey(s, n)
    ensures Delete(s, n) == s
  {
    if s != [] {
      assert s[0].name != n;
      HasKeyCons(s, n);
      DeleteAbsent(s[1..], n);
      assert s == [s[0]] + s[1..];
    }
  }

  /** A present name: exactly its entry is cut out, the rest keep their order. */
  lemma {:induction false} DeletePresent(s: seq<Entry>, n: string, i: int)
    requires DistinctKeys(s)
    requires 0 <= i < |s| && s[i].name == n
    ensures Delete(s, n) == s[..i] + s[i + 1..]
  {
    if i > 0 {
      assert s[0].name != n;
      DistinctTail(s);
      assert s[1..][i - 1].name == n;
      DeletePresent(s[1..], n, i - 1);
      assert s[1..][..i - 1] == s[1..i];
      assert s[1..][i..] == s[i + 1..];
      assert s[..i] == [s[0]] + s[1..i];
    }
  }

  /** Delete is the dictionary removal m - {n}. */
  lemma {:induction false} DeleteAsMap(s: seq<Entry>, n: string)
    requires DistinctKeys(s)
    ensures AsMap(Delete(s, n)) == AsMap(s) - {n}
  {
    if s != [] {
      DistinctTail(s);
      if s[0].name == n {
        AsMapKeys(s[1..], n);
        assert AsMap(s[1..]) - {n} == AsMap(s[1..]);
      } else {
        DeleteAsMap(s[1..], n);
        assert Delete(s, n)[1..] == Delete(s[1..], n);
      }
    }
  }

  /** After a delete the name reads as absent; every other name reads as before. */
  lemma DeleteLookup(s: seq<Entry>, n: string, m: string)
    requires DistinctKeys(s)
    ensures Lookup(Delete(s, n), n) == None
    ensures m != n ==> Lookup(Delete(s, n), m) == Lookup(s, m)
  {
    DeleteAsMap(s, n);
    LookupAsMap(Delete(s, n), n);
    LookupAsMap(Delete(s, n), m);
    LookupAsMap(s, m);
  }

  /** Delete keeps the keys unique and shrinks the table by one exactly when n was present. */
  lemma DeleteDistinct(s: seq<Entry>, n: string)
    requires DistinctKeys(s)
    ensures DistinctKeys(Delete(s, n))
    ensures |Delete(s, n)| == if HasKey(s, n) then |s| - 1 else |s|
  {
    if HasKey(s, n) {
      var i :| 0 <= i < |s| && s[i].name == n;
      DeletePresent(s, n, i);
      var d := Delete(s, n);
      forall a, b | 0 <= a < b < |d| ensures d[a].name != d[b].name {
        var a' := if a < i then a else a + 1;
        var b' := if b < i then b else b + 1;
        assert d[a] == s[a'] && d[b] == s[b'];
      }
    } else {
      DeleteAbsent(s, n);
    }
  }

  // ---------------------------------------------------------------------
  // The printed listing

  /** One line per entry, the k-th line showing the k-th entry. */
  lemma {:induction false} EntryLinesAt(s: seq<Entry>)
    ensures |EntryLines(s)| == |s|
    ensures forall k :: 0 <= k < |s| ==> EntryLines(s)[k] == s[k].name + ": " + s[k].value
  {
    if s != [] {
      var init := s[..|s| - 1];
      EntryLinesAt(init);
      assert forall k :: 0 <= k < |init| ==> init[k] == s[k];
    }
  }

  /** The listing is the notice for an empty table, else the header and one
      line per entry in insertion order. */
  lemma DisplayLinesShape(paletteName: string, s: seq<Entry>)
    ensures s == [] ==> DisplayLines(paletteName, s) == [paletteName + " is empty."]
    ensures s != [] ==>
      |DisplayLines(paletteName, s)| == |s| + 1 &&
      DisplayLines(paletteName, s)[0] == "Palette: " + paletteName &&
      forall k :: 0 <= k < |s| ==> DisplayLines(paletteName, s)[k + 1] == s[k].name + ": " + s[k].value
  {
    EntryLinesAt(s);
  }
}
