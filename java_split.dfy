/**
 * Java's String.split(",") on one line of the rate file. The line is cut at
 * every comma; when there was at least one comma, the empty fields at the
 * end are then dropped (all of them, so ",," gives no field at all); a line
 * without a comma is returned whole, even when it is empty.
 */
module JavaSplit {

  /** Every field between commas, empty ones included. */
  function Fields(s: string): (r: seq<string>)
    ensures |r| >= 1
  {
    if |s| == 0 then [""]
    else
      var rest := Fields(s[1..]);
      if s[0] == ',' then [""] + rest
      else [[s[0]] + rest[0]] + rest[1..]
  }

  /** r without its trailing empty strings. */
  function DropTrailingEmpty(r: seq<string>): seq<string> {
    if |r| > 0 && r[|r| - 1] == "" then DropTrailingEmpty(r[..|r| - 1]) else r
  }

  /** What is dropped is empty, what is kept is a prefix, and what is kept
      ends in a non-empty string. */
  lemma {:induction false} DropTrailingEmptyKeepsPrefix(r: seq<string>)
    ensures DropTrailingEmpty(r) <= r
    ensures forall i :: |DropTrailingEmpty(r)| <= i < |r| ==> r[i] == ""
    ensures |DropTrailingEmpty(r)| > 0 ==> DropTrailingEmpty(r)[|DropTrailingEmpty(r)| - 1] != ""
  {
    if |r| > 0 && r[|r| - 1] == "" {
      DropTrailingEmptyKeepsPrefix(r[..|r| - 1]);
    }
  }

  /** String.split(",") with its default limit of zero. */
  function Split(s: string): (r: seq<string>)
    ensures ',' !in s ==> r == [s]
    ensures forall i :: 0 <= i < |r| ==> ',' !in r[i]
  {
    FieldsHaveNoComma(s);
    DropTrailingEmptyKeepsPrefix(Fields(s));
    if ',' !in s then [s] else DropTrailingEmpty(Fields(s))
  }

  /** The fields joined with commas between them. */
  function Join(r: seq<string>): string {
    if |r| == 0 then ""
    else if |r| == 1 then r[0]
    else r[0] + "," + Join(r[1..])
  }

  /** Joining the fields with commas gives back the line. */
  lemma {:induction false} JoinFields(s: string)
    ensures Join(Fields(s)) == s
  {
    if |s| > 0 {
      var rest := Fields(s[1..]);
      JoinFields(s[1..]);
      if s[0] == ',' {
        assert Join([""] + rest) == "" + "," + Join(rest) by {
          assert ([""] + rest)[1..] == rest;
        }
        assert s == [','] + s[1..];
      } else {
        var r := [[s[0]] + rest[0]] + rest[1..];
        assert r[1..] == rest[1..];
        if |rest| == 1 {
          assert Join(r) == [s[0]] + rest[0];
        } else {
          assert Join(r) == [s[0]] + rest[0] + "," + Join(rest[1..]);
        }
        assert s == [s[0]] + s[1..];
      }
    }
  }

  /** No field contains a comma. */
  lemma {:induction false} FieldsHaveNoComma(s: string)
    ensures forall i :: 0 <= i < |Fields(s)| ==> ',' !in Fields(s)[i]
  {
    if |s| > 0 {
      FieldsHaveNoComma(s[1..]);
      var rest := Fields(s[1..]);
      if s[0] != ',' {
        assert ',' !in rest[0];
        assert ',' !in [s[0]] + rest[0];
      }
    }
  }

  /** A text without commas is a single field. */
  lemma {:induction false} FieldsWithoutComma(a: string)
    requires ',' !in a
    ensures Fields(a) == [a]
  {
    if |a| > 0 {
      assert ',' !in a[1..] by {
        assert forall c :: c in a[1..] ==> c in a;
      }
      FieldsWithoutComma(a[1..]);
      assert [a[0]] + a[1..] == a;
    }
  }

  /** A comma-free text before a comma is the first field. */
  lemma {:induction false} FieldsOfCommaAfter(a: string, t: string)
    requires ',' !in a
    ensures Fields(a + "," + t) == [a] + Fields(t)
  {
    if |a| == 0 {
      assert (a + "," + t)[1..] == t;
    } else {
      assert ',' !in a[1..] by {
        assert forall c :: c in a[1..] ==> c in a;
      }
      FieldsOfCommaAfter(a[1..], t);
      assert (a + "," + t)[1..] == a[1..] + "," + t;
      assert [a[0]] + a[1..] == a;
    }
  }

  /** Fields without commas joined with commas are cut back into themselves. */
  lemma {:induction false} FieldsOfJoin(r: seq<string>)
    requires |r| >= 1
    requires forall i :: 0 <= i < |r| ==> ',' !in r[i]
    ensures Fields(Join(r)) == r
  {
    if |r| == 1 {
      FieldsWithoutComma(r[0]);
    } else {
      FieldsOfJoin(r[1..]);
      FieldsOfCommaAfter(r[0], Join(r[1..]));
      assert r == [r[0]] + r[1..];
    }
  }

  /** Split takes apart what Join puts together, as long as no field holds a
      comma and the last field is not empty (a single field may be). */
  lemma SplitJoinRoundTrip(r: seq<string>)
    requires |r| >= 1
    requires forall i :: 0 <= i < |r| ==> ',' !in r[i]
    requires |r| > 1 ==> r[|r| - 1] != ""
    ensures Split(Join(r)) == r
  {
    FieldsOfJoin(r);
    if |r| == 1 {
      assert Join(r) == r[0];
    } else {
      var s := Join(r);
      assert s == r[0] + "," + Join(r[1..]);
      assert s[|r[0]|] == ',';
    }
  }

  /** What String.split(",") returns, in terms of the fields: a line without
      a comma comes back whole; otherwise the fields come back up to the last
      non-empty one, and everything dropped is empty. */
  lemma SplitIsFieldsUpToLastNonEmpty(s: string)
    ensures ',' !in s ==> Split(s) == Fields(s) == [s]
    ensures Split(s) <= Fields(s)
    ensures forall i :: |Split(s)| <= i < |Fields(s)| ==> Fields(s)[i] == ""
    ensures ',' in s && |Split(s)| > 0 ==> Split(s)[|Split(s)| - 1] != ""
    ensures forall i :: 0 <= i < |Split(s)| ==> ',' !in Split(s)[i]
  {
    FieldsHaveNoComma(s);
    DropTrailingEmptyKeepsPrefix(Fields(s));
    if ',' !in s {
      FieldsWithoutComma(s);
    }
  }

  /** A row whose last field is empty loses that field: "a,b," splits into
      a and b only. */
  lemma SplitDropsTrailingEmptyField(a: string, b: string)
    requires ',' !in a && ',' !in b && b != ""
    ensures Split(a + "," + b + ",") == [a, b]
  {
    var s := a + "," + b + ",";
    assert s == a + "," + (b + "," + "");
    FieldsOfCommaAfter(b, "");
    FieldsOfCommaAfter(a, b + "," + "");
    assert Fields(s) == [a, b] + [""];
    assert s[|a|] == ',';
    DropOneTrailingEmpty([a, b]);
  }

  /** The malformed row of the parser's test: its trailing empty field is
      dropped, leaving two fields where the header has three. */
  lemma SplitOfMalformedTestRow()
    ensures Split("2023-06-04,1.2100,") == ["2023-06-04", "1.2100"]
  {
    assert "2023-06-04,1.2100," == "2023-06-04" + "," + "1.2100" + ",";
    SplitDropsTrailingEmptyField("2023-06-04", "1.2100");
  }

  /** One empty field after a non-empty last field is dropped. */
  lemma DropOneTrailingEmpty(r: seq<string>)
    requires |r| > 0 && r[|r| - 1] != ""
    ensures DropTrailingEmpty(r + [""]) == r
  {
    assert (r + [""])[..|r|] == r;
  }

  /** A line of commas only splits into no field at all; an empty line into
      one empty field. */
  lemma SplitEdgeCases()
    ensures Split(",,") == []
    ensures Split("") == [""]
  {
    assert ",," == "" + "," + ("" + "," + "");
    FieldsOfCommaAfter("", "" + "," + "");
    FieldsOfCommaAfter("", "");
    assert Fields(",,") == ["", "", ""];
    assert ",,"[0] == ',';
    assert ["", "", ""][..2] == ["", ""] && ["", ""][..1] == [""] && [""][..0] == [];
    assert DropTrailingEmpty(["", "", ""]) == [];
  }
}
