/**
 The identifier-list parser: `splitCommas` deletes every space character from
 its input and splits what is left on commas, with the semantics of Go's
 `strings.ReplaceAll` and `strings.Split` for a one-character pattern.
 */
module Strings {

  /** The number of occurrences of `c` in `s`. */
  function Count(s: string, c: char): (n: nat)
    ensures n <= |s|
    ensures n == 0 <==> c !in s
  {
    if s == [] then 0 else (if s[0] == c then 1 else 0) + Count(s[1..], c)
  }

  lemma {:induction false} CountAppend(a: string, b: string, c: char)
    ensures Count(a + b, c) == Count(a, c) + Count(b, c)
  {
    if a == [] {
      assert a + b == b;
    } else {
      assert (a + b)[1..] == a[1..] + b;
      CountAppend(a[1..], b, c);
    }
  }

  /** `strings.ReplaceAll(s, string(c), "")`: `s` with every `c` deleted and
      every other character kept, in order. */
  function DeleteAll(s: string, c: char): (r: string)
    ensures c !in r
    ensures |r| == |s| - Count(s, c)
    ensures forall d :: d != c ==> Count(r, d) == Count(s, d)
  {
    if s == [] then []
    else
      var rest := DeleteAll(s[1..], c);
      var r := (if s[0] == c then [] else [s[0]]) + rest;
      assert forall d :: d != c ==> Count(r, d) == Count(s, d) by {
        forall d | d != c ensures Count(r, d) == Count(s, d) {
          CountAppend(if s[0] == c then [] else [s[0]], rest, d);
        }
      }
      r
  }

  /** Deleting a character that does not occur changes nothing. */
  lemma {:induction false} DeleteAllAbsent(s: string, c: char)
    requires c !in s
    ensures DeleteAll(s, c) == s
  {
    if s != [] {
      assert c !in s[1..];
      DeleteAllAbsent(s[1..], c);
    }
  }

  /** Deletion works piecewise: it distributes over concatenation. */
  lemma {:induction false} DeleteAllAppend(a: string, b: string, c: char)
    ensures DeleteAll(a + b, c) == DeleteAll(a, c) + DeleteAll(b, c)
  {
    if a == [] {
      assert a + b == b;
    } else {
      assert (a + b)[1..] == a[1..] + b;
      DeleteAllAppend(a[1..], b, c);
    }
  }

  /** `strings.Join(parts, string(sep))`: the parts with one `sep` between
      each two neighbours; no parts give the empty string. */
  function Join(parts: seq<string>, sep: char): string
  {
    if parts == [] then []
    else if |parts| == 1 then parts[0]
    else parts[0] + [sep] + Join(parts[1..], sep)
  }

  /** `strings.Split(s, string(sep))`: the maximal runs of `s` that hold no
      `sep`, one more than there are separators. Empty runs are kept, so the
      empty string gives a single empty field. */
  function Split(s: string, sep: char): (parts: seq<string>)
    ensures |parts| == Count(s, sep) + 1
    ensures forall i :: 0 <= i < |parts| ==> sep !in parts[i]
  {
    if s == [] then [[]]
    else
      var rest := Split(s[1..], sep);
      if s[0] == sep then [[]] + rest
      else [[s[0]] + rest[0]] + rest[1..]
  }

  /** One half of the round trip: the fields joined again with `sep` give
      back `s`. */
  lemma {:induction false} JoinSplit(s: string, sep: char)
    ensures Join(Split(s, sep), sep) == s
  {
    if s != [] {
      var rest := Split(s[1..], sep);
      JoinSplit(s[1..], sep);
      if s[0] == sep {
        assert Split(s, sep) == [[]] + rest;
        assert ([[]] + rest)[1..] == rest;
        assert [] + [sep] + Join(rest, sep) == s;
      } else {
        var parts := [[s[0]] + rest[0]] + rest[1..];
        assert Split(s, sep) == parts;
        if |rest| > 1 {
          assert parts[1..] == rest[1..];
          assert Join(rest, sep) == rest[0] + [sep] + Join(rest[1..], sep);
        }
      }
    }
  }

  /** Splitting a string whose leading run `a` holds no separator: `a` is
      glued to the front of the first field of the rest. */
  lemma {:induction false} SplitPrefix(a: string, t: string, sep: char)
    requires sep !in a
    ensures Split(a + t, sep) == [a + Split(t, sep)[0]] + Split(t, sep)[1..]
  {
    if a != [] {
      assert (a + t)[1..] == a[1..] + t;
      assert sep !in a[1..];
      SplitPrefix(a[1..], t, sep);
      assert [a[0]] + (a[1..] + Split(t, sep)[0]) == a + Split(t, sep)[0];
    } else {
      var rest := Split(t, sep);
      assert a + t == t;
      assert a + rest[0] == rest[0];
      assert rest == [rest[0]] + rest[1..];
    }
  }

  /** The other half of the round trip: fields that hold no separator, joined
      and split again, come back unchanged. */
  lemma {:induction false} SplitJoin(parts: seq<string>, sep: char)
    requires parts != []
    requires forall i :: 0 <= i < |parts| ==> sep !in parts[i]
    ensures Split(Join(parts, sep), sep) == parts
  {
    if |parts| == 1 {
      SplitPrefix(parts[0], [], sep);
      assert parts[0] + [] == parts[0];
    } else {
      var tail := Join(parts[1..], sep);
      SplitJoin(parts[1..], sep);
      assert parts[0] + [sep] + tail == parts[0] + ([sep] + tail);
      SplitPrefix(parts[0], [sep] + tail, sep);
      assert ([sep] + tail)[1..] == tail;
      assert Split([sep] + tail, sep) == [[]] + parts[1..];
      assert parts[0] + [] == parts[0];
      assert parts == [parts[0]] + parts[1..];
    }
  }

  /** `splitCommas`: every space deleted (tabs, newlines and other white
      space are kept), then split on commas. */
  function SplitCommas(s: string): (ids: seq<string>)
    ensures |ids| == Count(s, ',') + 1
    ensures forall i :: 0 <= i < |ids| ==> ' ' !in ids[i] && ',' !in ids[i]
    ensures Join(ids, ',') == DeleteAll(s, ' ')
  {
    var ids := Split(DeleteAll(s, ' '), ',');
    JoinSplit(DeleteAll(s, ' '), ',');
    assert forall i :: 0 <= i < |ids| ==> ' ' !in ids[i] by {
      forall i | 0 <= i < |ids| ensures ' ' !in ids[i] {
        JoinedPart(ids, ',', i, ' ');
      }
    }
    ids
  }

  /** A character that occurs in no part of the joined string occurs in no
      part. */
  lemma {:induction false} JoinedPart(parts: seq<string>, sep: char, i: nat, c: char)
    requires i < |parts|
    requires c !in Join(parts, sep)
    ensures c !in parts[i]
  {
    if |parts| > 1 {
      var tail := Join(parts[1..], sep);
      assert Join(parts, sep) == parts[0] + [sep] + tail;
      if i > 0 {
        assert c !in tail;
        JoinedPart(parts[1..], sep, i - 1, c);
      }
    }
  }

  /** The split is determined exactly: the only list of space- and comma-free
      fields that joins with commas to the space-free input. */
  lemma SplitCommasUnique(s: string, ids: seq<string>)
    requires ids != []
    requires forall i :: 0 <= i < |ids| ==> ',' !in ids[i]
    requires Join(ids, ',') == DeleteAll(s, ' ')
    ensures SplitCommas(s) == ids
  {
    SplitJoin(ids, ',');
  }

  /** An empty input is a single empty identifier. */
  lemma SplitCommasEmpty()
    ensures SplitCommas("") == [""]
  {
  }

  /** Empty fields are kept. */
  lemma SplitCommasEmptyField(s: string)
    requires s == "a,,b"
    ensures SplitCommas(s) == ["a", "", "b"]
  {
    var ids := ["a", "", "b"];
    assert DeleteAll(s, ' ') == s by {
      DeleteAllAbsent(s, ' ');
    }
    assert Join(ids, ',') == s by {
      assert ids[1..] == ["", "b"] && ids[1..][1..] == ["b"];
    }
    SplitCommasUnique(s, ids);
  }

  /** A space anywhere, also inside an identifier, makes no difference. */
  lemma SplitCommasIgnoresSpace(a: string, b: string)
    ensures SplitCommas(a + " " + b) == SplitCommas(a + b)
  {
    var sp: string := [' '];
    assert DeleteAll(sp, ' ') == [] by {
      assert sp[1..] == [];
    }
    DeleteAllAppend(a + sp, b, ' ');
    DeleteAllAppend(a, sp, ' ');
    DeleteAllAppend(a, b, ' ');
    assert DeleteAll(a + sp + b, ' ') == DeleteAll(a + b, ' ') by {
      assert DeleteAll(a, ' ') + [] == DeleteAll(a, ' ');
    }
  }

  /** Other white space than the space character survives. */
  lemma SplitCommasKeepsTab(s: string)
    requires s == "a\t,b"
    ensures SplitCommas(s) == ["a\t", "b"]
  {
    var ids := ["a\t", "b"];
    assert DeleteAll(s, ' ') == s by {
      DeleteAllAbsent(s, ' ');
    }
    assert Join(ids, ',') == s by {
      assert ids[1..] == ["b"];
    }
    SplitCommasUnique(s, ids);
  }
}
