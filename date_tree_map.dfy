/**
 * java.util.TreeMap<LocalDate, V> as the parser fills it: its entries kept
 * in ascending date order, one entry per date, and put replacing the value
 * of a date already present. The red-black tree is replaced by a sorted
 * sequence searched from the front; what a caller sees (the map and the
 * iteration order) is the same.
 */
module DateTreeMaps {
  import opened Dates

  /** Each entry's date is before the date of every later entry. */
  predicate StrictlyAscending<V>(s: seq<(Date, V)>) {
    forall i, j :: 0 <= i < j < |s| ==> Before(s[i].0, s[j].0)
  }

  /** The dates of the entries. */
  function KeysOf<V>(s: seq<(Date, V)>): set<Date> {
    set i | 0 <= i < |s| :: s[i].0
  }

  /** The map that putting the entries one after another builds: its keys are
      the entries' dates, and a later entry for a date replaces an earlier one. */
  function AsMap<V>(s: seq<(Date, V)>): (m: map<Date, V>)
    ensures m.Keys == KeysOf(s)
  {
    if |s| == 0 then map[]
    else
      var last := s[|s| - 1];
      assert s == s[..|s| - 1] + [last];
      assert KeysOf(s) == KeysOf(s[..|s| - 1]) + {last.0};
      AsMap(s[..|s| - 1])[last.0 := last.1]
  }

  /** The map has at most one key per entry. */
  lemma {:induction false} AsMapSize<V>(s: seq<(Date, V)>)
    ensures |AsMap(s)| <= |s|
  {
    if |s| > 0 {
      AsMapSize(s[..|s| - 1]);
    }
  }

  /** An entry that no later entry shares a date with holds the value that
      the map keeps for its date. */
  lemma {:induction false} AsMapLastWins<V>(s: seq<(Date, V)>, i: nat)
    requires i < |s|
    requires forall j :: i < j < |s| ==> s[j].0 != s[i].0
    ensures s[i].0 in AsMap(s) && AsMap(s)[s[i].0] == s[i].1
  {
    if i < |s| - 1 {
      AsMapLastWins(s[..|s| - 1], i);
    }
  }

  /** No entry after entry i holds date d. */
  predicate NoLaterEntry<V>(s: seq<(Date, V)>, i: nat, d: Date) {
    forall j :: i < j < |s| ==> s[j].0 != d
  }

  /** In an ascending sequence every entry is the last one for its date. */
  lemma AscendingAsMapAt<V>(s: seq<(Date, V)>, i: nat)
    requires StrictlyAscending(s) && i < |s|
    ensures s[i].0 in AsMap(s) && AsMap(s)[s[i].0] == s[i].1
  {
    forall j | i < j < |s| ensures s[j].0 != s[i].0 {
      assert Before(s[i].0, s[j].0);
    }
    AsMapLastWins(s, i);
  }

  /** Every key of the map is the date of some entry. */
  lemma KeyHasEntry<V>(s: seq<(Date, V)>, k: Date) returns (i: nat)
    requires k in AsMap(s)
    ensures i < |s| && s[i].0 == k
  {
    i :| 0 <= i < |s| && s[i].0 == k;
  }

  /** An ascending sequence builds the map that has its dates as keys and
      holds each entry's value. */
  lemma AsMapOfAscending<V>(t: seq<(Date, V)>, m: map<Date, V>)
    requires StrictlyAscending(t)
    requires m.Keys == KeysOf(t)
    requires forall j :: 0 <= j < |t| ==> t[j].0 in m && m[t[j].0] == t[j].1
    ensures AsMap(t) == m
  {
    var a := AsMap(t);
    assert a.Keys == m.Keys;
    forall q | q in m ensures a[q] == m[q] {
      var j := KeyHasEntry(t, q);
      AscendingAsMapAt(t, j);
    }
  }

  /** Inserting a date between the dates before it and those after it keeps
      the entries ascending. */
  lemma InsertKeepsOrder<V>(s: seq<(Date, V)>, i: nat, k: Date, v: V)
    requires StrictlyAscending(s) && i <= |s|
    requires forall j :: 0 <= j < i ==> Before(s[j].0, k)
    requires i < |s| ==> Before(k, s[i].0)
    ensures StrictlyAscending(s[..i] + [(k, v)] + s[i..])
  {
    var t := s[..i] + [(k, v)] + s[i..];
    forall a, b | 0 <= a < b < |t| ensures Before(t[a].0, t[b].0) {
      if b == i {
        assert t[a] == s[a];
      } else if a == i {
        assert t[b] == s[b - 1];
        if b - 1 > i {
          assert Before(s[i].0, s[b - 1].0);
          BeforeIsStrictTotalOrder(k, s[i].0, s[b - 1].0);
        }
      } else {
        var a' := if a < i then a else a - 1;
        var b' := if b < i then b else b - 1;
        assert t[a] == s[a'] && t[b] == s[b'];
        if a < i && b > i {
          assert Before(s[a'].0, s[b'].0);
        }
      }
    }
  }

  /** Inserting an entry adds its date to the dates. */
  lemma KeysOfInsert<V>(s: seq<(Date, V)>, i: nat, k: Date, v: V)
    requires i <= |s|
    ensures KeysOf(s[..i] + [(k, v)] + s[i..]) == KeysOf(s) + {k}
  {
    var t := s[..i] + [(k, v)] + s[i..];
    forall q | q in KeysOf(t) ensures q in KeysOf(s) + {k} {
      var j :| 0 <= j < |t| && t[j].0 == q;
      if j != i {
        var j' := if j < i then j else j - 1;
        assert t[j] == s[j'];
      }
    }
    forall q | q in KeysOf(s) + {k} ensures q in KeysOf(t) {
      if q in KeysOf(s) {
        var j :| 0 <= j < |s| && s[j].0 == q;
        var j' := if j < i then j else j + 1;
        assert t[j'] == s[j];
      } else {
        assert t[i].0 == k;
      }
    }
  }

  /** Every entry of the ascending inserted sequence holds the value of the
      map with the new date added. */
  lemma InsertValues<V>(s: seq<(Date, V)>, i: nat, k: Date, v: V)
    requires StrictlyAscending(s) && i <= |s|
    requires forall j :: 0 <= j < i ==> Before(s[j].0, k)
    requires i < |s| ==> Before(k, s[i].0)
    ensures var t := s[..i] + [(k, v)] + s[i..];
      forall j :: 0 <= j < |t| ==> t[j].0 in AsMap(s)[k := v] && AsMap(s)[k := v][t[j].0] == t[j].1
  {
    var t := s[..i] + [(k, v)] + s[i..];
    var m := AsMap(s)[k := v];
    forall j | 0 <= j < |t| ensures t[j].0 in m && m[t[j].0] == t[j].1 {
      if j != i {
        var j' := if j < i then j else j - 1;
        assert t[j] == s[j'];
        AscendingAsMapAt(s, j');
        assert s[j'].0 != k by {
          if j' < i {
            assert Before(s[j'].0, k);
          } else {
            assert Before(k, s[i].0);
            if j' > i {
              assert Before(s[i].0, s[j'].0);
            }
          }
        }
      }
    }
  }

  /** Inserting an entry for a new date at its place keeps the order and adds
      just that key to the map. */
  lemma InsertAt<V>(s: seq<(Date, V)>, i: nat, k: Date, v: V)
    requires StrictlyAscending(s) && i <= |s|
    requires forall j :: 0 <= j < i ==> Before(s[j].0, k)
    requires i < |s| ==> Before(k, s[i].0)
    ensures StrictlyAscending(s[..i] + [(k, v)] + s[i..])
    ensures AsMap(s[..i] + [(k, v)] + s[i..]) == AsMap(s)[k := v]
  {
    InsertKeepsOrder(s, i, k, v);
    KeysOfInsert(s, i, k, v);
    InsertValues(s, i, k, v);
    AsMapOfAscending(s[..i] + [(k, v)] + s[i..], AsMap(s)[k := v]);
  }

  /** Replacing an entry's value keeps the dates, and their order. */
  lemma ReplaceKeepsDates<V>(s: seq<(Date, V)>, i: nat, v: V)
    requires i < |s|
    ensures var t := s[..i] + [(s[i].0, v)] + s[i + 1..];
      |t| == |s| && (forall j :: 0 <= j < |s| ==> t[j].0 == s[j].0) && KeysOf(t) == KeysOf(s)
  {
    var t := s[..i] + [(s[i].0, v)] + s[i + 1..];
    assert forall j :: 0 <= j < |s| && j != i ==> t[j] == s[j];
  }

  /** Replacing the value of the entry for a date keeps the order and changes
      only that key's value. */
  lemma ReplaceAt<V>(s: seq<(Date, V)>, i: nat, v: V)
    requires StrictlyAscending(s) && i < |s|
    ensures StrictlyAscending(s[..i] + [(s[i].0, v)] + s[i + 1..])
    ensures AsMap(s[..i] + [(s[i].0, v)] + s[i + 1..]) == AsMap(s)[s[i].0 := v]
  {
    var k := s[i].0;
    var t := s[..i] + [(k, v)] + s[i + 1..];
    ReplaceKeepsDates(s, i, v);
    var m := AsMap(s)[k := v];
    forall j | 0 <= j < |t| ensures t[j].0 in m && m[t[j].0] == t[j].1 {
      if j != i {
        assert t[j] == s[j];
        AscendingAsMapAt(s, j);
        if j < i {
          assert Before(s[j].0, s[i].0);
        } else {
          assert Before(s[i].0, s[j].0);
        }
      }
    }
    AsMapOfAscending(t, m);
  }

  /** The dates after the first entry of an ascending sequence are all its
      dates but the first. */
  lemma KeysOfTail<V>(s: seq<(Date, V)>)
    requires StrictlyAscending(s) && |s| > 0
    ensures KeysOf(s[1..]) == KeysOf(s) - {s[0].0}
  {
    var t := s[1..];
    forall q | q in KeysOf(t) ensures q in KeysOf(s) - {s[0].0} {
      var j :| 0 <= j < |t| && t[j].0 == q;
      assert t[j] == s[j + 1];
      assert Before(s[0].0, s[j + 1].0);
    }
    forall q | q in KeysOf(s) - {s[0].0} ensures q in KeysOf(t) {
      var j :| 0 <= j < |s| && s[j].0 == q;
      assert t[j - 1] == s[j];
    }
  }

  /** Dropping the first entry of an ascending sequence drops its date. */
  lemma AsMapOfTail<V>(s: seq<(Date, V)>)
    requires StrictlyAscending(s) && |s| > 0
    ensures AsMap(s[1..]) == AsMap(s) - {s[0].0}
  {
    var t := s[1..];
    var m := AsMap(s) - {s[0].0};
    KeysOfTail(s);
    forall j | 0 <= j < |t| ensures t[j].0 in m && m[t[j].0] == t[j].1 {
      assert t[j] == s[j + 1];
      assert Before(s[0].0, s[j + 1].0);
      AscendingAsMapAt(s, j + 1);
    }
    AsMapOfAscending(t, m);
  }

  /** An ascending sequence is fixed by its map: whatever order the entries
      were put in, the iteration order of the tree is the ascending one. */
  lemma {:induction false} AscendingIsDeterminedByMap<V>(s: seq<(Date, V)>, t: seq<(Date, V)>)
    requires StrictlyAscending(s) && StrictlyAscending(t)
    requires AsMap(s) == AsMap(t)
    ensures s == t
  {
    if |s| == 0 || |t| == 0 {
      if |s| > 0 {
        AscendingAsMapAt(s, 0);
      } else if |t| > 0 {
        AscendingAsMapAt(t, 0);
      }
    } else {
      AscendingAsMapAt(s, 0);
      AscendingAsMapAt(t, 0);
      var i := KeyHasEntry(t, s[0].0);
      var j := KeyHasEntry(s, t[0].0);
      if s[0].0 != t[0].0 {
        assert Before(t[0].0, t[i].0);
        assert Before(s[0].0, s[j].0);
        BeforeIsStrictTotalOrder(s[0].0, t[0].0, s[0].0);
        assert false;
      }
      AsMapOfTail(s);
      AsMapOfTail(t);
      AscendingIsDeterminedByMap(s[1..], t[1..]);
      assert s == [s[0]] + s[1..] && t == [t[0]] + t[1..];
    }
  }

  /** The tree map: its entries in iteration order. */
  class DateTreeMap<V> {
    var entries: seq<(Date, V)>

    predicate Valid()
      reads this
    {
      StrictlyAscending(entries)
    }

    /** The map the tree stands for. */
    function Contents(): map<Date, V>
      reads this
    {
      AsMap(entries)
    }

    /** new TreeMap<>(): no entries. */
    constructor ()
      ensures Valid() && entries == [] && Contents() == map[]
    {
      entries := [];
    }

    /** TreeMap.put: the date now maps to the value, whether it was present
        or not, every other date keeps its value, and the entries stay in
        ascending date order. */
    method Put(key: Date, value: V)
      requires Valid()
      modifies this
      ensures Valid()
      ensures Contents() == old(Contents())[key := value]
    {
      var i := 0;
      while i < |entries| && Before(entries[i].0, key)
        invariant 0 <= i <= |entries|
        invariant forall j :: 0 <= j < i ==> Before(entries[j].0, key)
      {
        i := i + 1;
      }
      if i < |entries| && entries[i].0 == key {
        ReplaceAt(entries, i, value);
        entries := entries[..i] + [(key, value)] + entries[i + 1..];
      } else {
        if i < |entries| {
          BeforeIsStrictTotalOrder(key, entries[i].0, key);
        }
        InsertAt(entries, i, key, value);
        entries := entries[..i] + [(key, value)] + entries[i..];
      }
    }
  }
}
