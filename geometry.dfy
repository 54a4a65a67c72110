/** `extract_geometry` (src/misc.py): splitting a Tk geometry string
    "WxH+X+Y" into its four textual parts, with Python's `str.split`. */
module Geometry {
  import opened Common

  /** `s.split(sep)` for a one-character separator: the pieces between
      separators, in order; an empty string gives one empty piece. */
  function Split(s: string, sep: char): (r: seq<string>)
    ensures |r| >= 1
    ensures FreeOf(r, sep)
    decreases |s|
  {
    if s == [] then [""]
    else
      var rest := Split(s[1..], sep);
      if s[0] == sep then [""] + rest
      else
        var head := [s[0]] + rest[0];
        assert sep !in head;
        [head] + rest[1..]
  }

  /** Joining the pieces with the separator gives back the input. */
  lemma {:induction false} JoinSplit(s: string, sep: char)
    ensures Join(Split(s, sep), sep) == s
    decreases |s|
  {
    if s != [] {
      var rest := Split(s[1..], sep);
      JoinSplit(s[1..], sep);
      assert s == [s[0]] + s[1..];
      if s[0] == sep {
        assert ([""] + rest)[1..] == rest;
      } else if |rest| > 1 {
        var head := [s[0]] + rest[0];
        assert ([head] + rest[1..])[1..] == rest[1..];
        assert head + [sep] + Join(rest[1..], sep) == [s[0]] + (rest[0] + [sep] + Join(rest[1..], sep));
      }
    }
  }

  /** There is more than one piece exactly when the separator occurs. */
  lemma {:induction false} SplitMany(s: string, sep: char)
    ensures sep in s <==> |Split(s, sep)| > 1
    decreases |s|
  {
    if s != [] {
      SplitMany(s[1..], sep);
      assert s == [s[0]] + s[1..];
    }
  }

  /** `sep.join(parts)`: the inverse of `Split`. */
  function Join(parts: seq<string>, sep: char): string
    requires |parts| >= 1
    decreases |parts|
  {
    if |parts| == 1 then parts[0] else parts[0] + [sep] + Join(parts[1..], sep)
  }

  predicate FreeOf(parts: seq<string>, c: char)
  {
    forall i :: 0 <= i < |parts| ==> c !in parts[i]
  }

  /** Splitting a string that does not start with the separator: its first
      character joins the first piece of the rest. */
  lemma SplitCons(s: string, sep: char)
    requires s != [] && s[0] != sep
    ensures Split(s, sep) == [[s[0]] + Split(s[1..], sep)[0]] + Split(s[1..], sep)[1..]
  {
  }

  /** Splitting a piece free of the separator followed by more text: the
      piece is glued to the first piece of the rest. */
  lemma {:induction false} SplitPrefix(p: string, t: string, sep: char)
    requires sep !in p
    ensures Split(p + t, sep) == [p + Split(t, sep)[0]] + Split(t, sep)[1..]
    decreases |p|
  {
    var st := Split(t, sep);
    if p == [] {
      assert p + t == t && p + st[0] == st[0];
    } else {
      var s := p + t;
      assert s[1..] == p[1..] + t;
      assert s[0] == p[0];
      SplitPrefix(p[1..], t, sep);
      SplitCons(s, sep);
      var rest := Split(s[1..], sep);
      assert rest[0] == p[1..] + st[0];
      assert rest[1..] == st[1..];
      assert [s[0]] + rest[0] == p + st[0] by {
        assert p == [p[0]] + p[1..];
      }
    }
  }

  /** A character absent from the input is absent from every piece. */
  lemma {:induction false} SplitFreeOf(s: string, sep: char, c: char)
    requires c !in s
    ensures FreeOf(Split(s, sep), c)
    decreases |s|
  {
    if s != [] {
      assert c !in s[1..] by { assert forall k :: 0 <= k < |s| - 1 ==> s[1..][k] == s[k + 1]; }
      SplitFreeOf(s[1..], sep, c);
    }
  }

  /** Splitting what `Join` produced gives back the parts, provided no part
      contains the separator. */
  lemma {:induction false} SplitJoin(parts: seq<string>, sep: char)
    requires |parts| >= 1 && FreeOf(parts, sep)
    ensures Split(Join(parts, sep), sep) == parts
    decreases |parts|
  {
    if |parts| == 1 {
      SplitPrefix(parts[0], "", sep);
      assert parts[0] + "" == parts[0];
    } else {
      var rest := parts[1..];
      SplitJoin(rest, sep);
      var j := Join(rest, sep);
      assert Split([sep] + j, sep) == [""] + Split(j, sep) by {
        assert ([sep] + j)[1..] == j;
      }
      assert parts[0] + [sep] + j == parts[0] + ([sep] + j);
      SplitPrefix(parts[0], [sep] + j, sep);
      assert parts[0] + "" == parts[0];
      assert [parts[0]] + rest == parts;
    }
  }

  /** The inverse of `extract_geometry`: the width, an "x", then the other
      parts separated by "+". */
  function Rejoin(parts: seq<string>): string
    requires |parts| >= 2
  {
    parts[0] + "x" + Join(parts[1..], '+')
  }

  /** No character occurs twice in `s`. */
  predicate AtMostOnce(s: string, c: char)
  {
    forall i, j :: 0 <= i < j < |s| && s[i] == c ==> s[j] != c
  }

  /** `extract_geometry(geometry)`: the text before the first "x", followed
      by the "+"-separated pieces of the text between the first and the
      second "x". With no "x" at all, `w[1]` raises IndexError. The parts
      are strings: nothing converts them to int. */
  function ExtractGeometry(geometry: string): (r: Result<seq<string>>)
    ensures r.Err? <==> 'x' !in geometry
    ensures r.Err? ==> r.error == IndexError
    ensures r.Ok? ==> |r.value| >= 2 && FreeOf(r.value, 'x') && FreeOf(r.value[1..], '+')
    ensures r.Ok? ==> |r.value[0]| < |geometry| && geometry[..|r.value[0]| + 1] == r.value[0] + "x"
    ensures r.Ok? ==>
      var back := Rejoin(r.value);
      back <= geometry && (|back| == |geometry| || geometry[|back|] == 'x')
  {
    var w := Split(geometry, 'x');
    SplitMany(geometry, 'x');
    if |w| < 2 then Err(IndexError)
    else
      var hxy := Split(w[1], '+');
      SplitFreeOf(w[1], '+', 'x');
      var parts := [w[0]] + hxy;
      assert parts[1..] == hxy;
      JoinSplit(geometry, 'x');
      JoinSplit(w[1], '+');
      assert geometry == w[0] + "x" + Join(w[1..], 'x');
      assert w[1..][0] == w[1];
      assert Join(w[1..], 'x') == w[1] || Join(w[1..], 'x') == w[1] + "x" + Join(w[2..], 'x') by {
        if |w| > 2 { assert w[1..][1..] == w[2..]; }
      }
      assert geometry[..|w[0]| + 1] == w[0] + "x" by {
        assert geometry == (w[0] + "x") + Join(w[1..], 'x');
      }
      assert Rejoin(parts) == w[0] + "x" + w[1];
      assert geometry == Rejoin(parts) || geometry == Rejoin(parts) + "x" + Join(w[2..], 'x');
      Ok(parts)
  }

  /** `extract_geometry` inverts `Rejoin` whenever no part contains an "x"
      and no part after the first contains a "+". */
  lemma ExtractRejoin(parts: seq<string>)
    requires |parts| >= 2 && FreeOf(parts, 'x') && FreeOf(parts[1..], '+')
    ensures ExtractGeometry(Rejoin(parts)) == Ok(parts)
  {
    var tail := Join(parts[1..], '+');
    JoinFreeOf(parts[1..], '+', 'x');
    SplitJoin([parts[0], tail], 'x');
    assert Join([parts[0], tail], 'x') == Rejoin(parts);
    SplitJoin(parts[1..], '+');
    assert [parts[0]] + parts[1..] == parts;
  }

  lemma {:induction false} JoinFreeOf(parts: seq<string>, sep: char, c: char)
    requires |parts| >= 1 && FreeOf(parts, c) && c != sep
    ensures c !in Join(parts, sep)
    decreases |parts|
  {
    if |parts| > 1 {
      JoinFreeOf(parts[1..], sep, c);
    }
  }

  /** A Tk geometry string "WxH+X+Y" gives back (W, H, X, Y). */
  lemma ExtractWellFormed(w: string, h: string, x: string, y: string)
    requires FreeOf([w, h, x, y], 'x') && FreeOf([w, h, x, y], '+')
    ensures ExtractGeometry(w + "x" + h + "+" + x + "+" + y) == Ok([w, h, x, y])
  {
    var parts := [w, h, x, y];
    assert parts[1..] == [h, x, y];
    assert [h, x, y][1..] == [x, y];
    assert [x, y][1..] == [y];
    assert Join([y], '+') == y;
    assert Join([x, y], '+') == x + "+" + y;
    assert Join([h, x, y], '+') == h + "+" + (x + "+" + y);
    assert Rejoin(parts) == w + "x" + h + "+" + x + "+" + y;
    ExtractRejoin(parts);
  }

  /** On any input with exactly one "x", re-joining the result reproduces the input. */
  lemma RejoinSingleX(geometry: string)
    requires 'x' in geometry && AtMostOnce(geometry, 'x')
    ensures ExtractGeometry(geometry).Ok?
    ensures Rejoin(ExtractGeometry(geometry).value) == geometry
  {
    var parts := ExtractGeometry(geometry).value;
    var back := Rejoin(parts);
    var i := |parts[0]|;
    assert geometry[i] == 'x' by {
      assert geometry[..i + 1][i] == (parts[0] + "x")[i];
    }
    assert i < |back|;
    assert forall j :: i < j < |geometry| ==> geometry[j] != 'x';
    assert |back| == |geometry|;
  }
}
