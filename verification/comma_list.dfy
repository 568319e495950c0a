/**
 * The comma-separated list codec used by every free-text list field of the
 * application: the health passport's three lists (app.py:353-355), the
 * medication list (app.py:368) and the e-prescription (app.py:470) all parse
 * text as `[x.strip() for x in text.split(",") if x.strip()]`, and the
 * passport and medication forms prefill their text boxes with
 * `", ".join(items)` (app.py:348-350, app.py:366).
 */
module CommaList {

  /** The whitespace that `str.strip()` removes, restricted to ASCII: space,
      tab, line feed, vertical tab, form feed and carriage return (U+0009 to
      U+000D), and the four separators U+001C to U+001F that `str.isspace()`
      also counts. */
  predicate IsSpace(c: char) {
    c == ' ' || '\t' <= c <= '\r' || '\U{001C}' <= c <= '\U{001F}'
  }

  /** Neither end of `s` is whitespace (trivially true of the empty string). */
  predicate IsStripped(s: string) {
    |s| == 0 || (!IsSpace(s[0]) && !IsSpace(s[|s| - 1]))
  }

  /** An item that can sit in a stored list: non-empty, stripped, without a comma. */
  predicate IsItem(x: string) {
    x != "" && IsStripped(x) && ',' !in x
  }

  /** Every element of `xs` is an item. */
  predicate AllItems(xs: seq<string>) {
    forall i :: 0 <= i < |xs| ==> IsItem(xs[i])
  }

  /** `s` with its leading whitespace removed (`str.lstrip()`). */
  function TrimLeft(s: string): (r: string)
    ensures |r| <= |s| && r == s[|s| - |r|..]
    ensures r == [] || !IsSpace(r[0])
    ensures forall i :: 0 <= i < |s| - |r| ==> IsSpace(s[i])
  {
    if |s| > 0 && IsSpace(s[0]) then TrimLeft(s[1..]) else s
  }

  /** `s` with its trailing whitespace removed (`str.rstrip()`). */
  function TrimRight(s: string): (r: string)
    ensures |r| <= |s| && r == s[..|r|]
    ensures r == [] || !IsSpace(r[|r| - 1])
    ensures forall i :: |r| <= i < |s| ==> IsSpace(s[i])
  {
    if |s| > 0 && IsSpace(s[|s| - 1]) then TrimRight(s[..|s| - 1]) else s
  }

  /** `s` is `r` with only whitespace in front of it (its first `k`
      characters) and only whitespace after it. */
  predicate Padded(s: string, r: string, k: nat) {
    k + |r| <= |s| && r == s[k..k + |r|] && AllSpace(s[..k]) && AllSpace(s[k + |r|..])
  }

  /** Every character of `t` is whitespace. */
  predicate AllSpace(t: string) {
    |t| == 0 || (IsSpace(t[0]) && AllSpace(t[1..]))
  }

  /** `AllSpace` holds of a string whose every position is whitespace. */
  lemma {:induction false} AllSpaceAt(t: string)
    requires forall i :: 0 <= i < |t| ==> IsSpace(t[i])
    ensures AllSpace(t)
  {
    if |t| > 0 {
      AllSpaceAt(t[1..]);
    }
  }

  /** `s.strip()`: the result is stripped, adds no comma, is empty exactly
      when `s` is all whitespace, and leaves a stripped string alone;
      `StripIsPadded` pins it down exactly. */
  function Strip(s: string): (r: string)
    ensures IsStripped(r)
    ensures ',' !in s ==> ',' !in r
    ensures r == [] <==> forall i :: 0 <= i < |s| ==> IsSpace(s[i])
    ensures IsStripped(s) ==> r == s
  {
    var l := TrimLeft(s);
    var r := TrimRight(l);
    var k := |s| - |l|;
    assert forall i :: k <= i < |s| ==> s[i] == l[i - k];
    assert r == [] ==> l == [];
    assert IsStripped(s) ==> l == s && r == s;
    assert ',' in r ==> ',' in l;
    r
  }

  /** `s.strip()` is `s` without its leading and trailing whitespace: a
      contiguous piece of `s` with only whitespace before and after it. Being
      stripped itself, it is the largest such piece. */
  lemma StripIsPadded(s: string)
    ensures exists k :: Padded(s, Strip(s), k)
  {
    var l := TrimLeft(s);
    var r := TrimRight(l);
    var k := |s| - |l|;
    assert r == Strip(s);
    assert r == s[k..k + |r|];
    var before, after := s[..k], s[k + |r|..];
    assert forall i :: 0 <= i < |before| ==> before[i] == s[i];
    AllSpaceAt(before);
    assert forall i :: 0 <= i < |after| ==> after[i] == l[|r| + i];
    AllSpaceAt(after);
    assert Padded(s, r, k);
  }

  /** `s.split(",")`: the fragments between commas, always at least one. */
  function Split(s: string): (r: seq<string>)
    ensures |r| >= 1
    ensures forall i :: 0 <= i < |r| ==> ',' !in r[i]
    ensures |r| <= |s| + 1
  {
    if |s| == 0 then [""]
    else
      var rest := Split(s[1..]);
      if s[0] == ',' then [""] + rest
      else [[s[0]] + rest[0]] + rest[1..]
  }

  /** `sep.join(xs)`: empty for no strings, the string itself for one;
      otherwise the first string, then the separator, then the join of the
      rest. */
  function JoinWith(xs: seq<string>, sep: string): (r: string)
    ensures |xs| == 0 ==> r == ""
    ensures |xs| > 0 ==> xs[0] <= r
    ensures |xs| == 1 ==> r == xs[0]
    ensures |xs| >= 2 ==> |r| >= |xs[0]| + |sep| && r[|xs[0]|..|xs[0]| + |sep|] == sep
  {
    if |xs| == 0 then ""
    else if |xs| == 1 then xs[0]
    else
      var r := xs[0] + sep + JoinWith(xs[1..], sep);
      assert r[..|xs[0]|] == xs[0];
      assert r[|xs[0]|..|xs[0]| + |sep|] == sep;
      r
  }

  /** The separator the forms prefill with. */
  const Separator: string := ", "

  /** `", ".join(xs)`: the text a form shows for a stored list. It starts with
      the first item, which a comma and a space follow when there are more;
      for a list of items it is empty exactly when the list is. */
  function Join(xs: seq<string>): (r: string)
    ensures |xs| > 0 ==> xs[0] <= r
    ensures |xs| >= 2 ==> |r| >= |xs[0]| + 2 && r[|xs[0]|..|xs[0]| + 2] == ", "
    ensures AllItems(xs) ==> (r == "" <==> |xs| == 0)
  {
    assert AllItems(xs) && |xs| > 0 ==> IsItem(xs[0]);
    JoinWith(xs, Separator)
  }

  /** Strips every fragment and keeps the non-empty ones, in order. */
  function Clean(fragments: seq<string>): (r: seq<string>)
    ensures |r| <= |fragments|
    ensures (forall i :: 0 <= i < |fragments| ==> ',' !in fragments[i]) ==> AllItems(r)
    ensures forall x :: x in r ==> x != [] && IsStripped(x)
  {
    if |fragments| == 0 then []
    else
      var t := Strip(fragments[0]);
      var rest := Clean(fragments[1..]);
      if t == [] then rest else [t] + rest
  }

  /** `[x.strip() for x in text.split(",") if x.strip()]`. */
  function Parse(text: string): (r: seq<string>)
    ensures AllItems(r)
    ensures |r| <= |text| + 1
  {
    Clean(Split(text))
  }

  // ---------------------------------------------------------------------------
  // Split and join on "," are inverse to each other
  // ---------------------------------------------------------------------------

  /** A comma-free string is a single fragment. */
  lemma {:induction false} SplitCommaFree(x: string)
    requires ',' !in x
    ensures Split(x) == [x]
  {
    if |x| > 0 {
      SplitCommaFree(x[1..]);
      assert [x[0]] + x[1..] == x;
    }
  }

  /** Splitting `a + "," + b` splits `a` and `b` separately. */
  lemma {:induction false} SplitAtComma(a: string, b: string)
    ensures Split(a + [','] + b) == Split(a) + Split(b)
  {
    if |a| == 0 {
      assert a + [','] + b == [','] + b;
      assert ([','] + b)[1..] == b;
    } else {
      var s := a + [','] + b;
      assert s[0] == a[0];
      assert s[1..] == a[1..] + [','] + b;
      SplitAtComma(a[1..], b);
    }
  }

  /** Prefixing a comma-free string extends the first fragment only. */
  lemma {:induction false} SplitCommaFreePrefix(x: string, t: string)
    requires ',' !in x
    ensures Split(x + t) == [x + Split(t)[0]] + Split(t)[1..]
  {
    if |x| == 0 {
      assert x + t == t;
      assert x + Split(t)[0] == Split(t)[0];
      assert Split(t) == [Split(t)[0]] + Split(t)[1..];
    } else {
      var s := x + t;
      assert s[0] == x[0];
      assert s[1..] == x[1..] + t;
      SplitCommaFreePrefix(x[1..], t);
      assert [x[0]] + (x[1..] + Split(t)[0]) == x + Split(t)[0];
    }
  }

  /** Joining the fragments with "," gives back the text. */
  lemma {:induction false} JoinSplit(s: string)
    ensures JoinWith(Split(s), ",") == s
  {
    if |s| > 0 {
      JoinSplit(s[1..]);
      var rest := Split(s[1..]);
      if s[0] == ',' {
        assert ([""] + rest)[1..] == rest;
        assert s == [','] + s[1..];
      } else {
        var r := [[s[0]] + rest[0]] + rest[1..];
        if |rest| == 1 {
          assert s == [s[0]] + s[1..];
        } else {
          assert r[1..] == rest[1..];
          assert JoinWith(rest, ",") == rest[0] + "," + JoinWith(rest[1..], ",");
          assert s == [s[0]] + s[1..];
        }
      }
    }
  }

  /** Splitting a ","-join of comma-free fragments gives back the fragments. */
  lemma {:induction false} SplitJoin(xs: seq<string>)
    requires |xs| >= 1
    requires forall i :: 0 <= i < |xs| ==> ',' !in xs[i]
    ensures Split(JoinWith(xs, ",")) == xs
  {
    SplitCommaFree(xs[0]);
    if |xs| > 1 {
      SplitJoin(xs[1..]);
      SplitAtComma(xs[0], JoinWith(xs[1..], ","));
      assert xs[0] + "," + JoinWith(xs[1..], ",") == xs[0] + [','] + JoinWith(xs[1..], ",");
      assert xs == [xs[0]] + xs[1..];
    }
  }

  // ---------------------------------------------------------------------------
  // Parsing
  // ---------------------------------------------------------------------------

  /** Leading whitespace never survives `strip`. */
  lemma StripSpacePrefix(c: char, t: string)
    requires IsSpace(c)
    ensures Strip([c] + t) == Strip(t)
  {
    assert ([c] + t)[1..] == t;
  }

  /** Cleaning distributes over concatenation: the order of fragments is kept. */
  lemma {:induction false} CleanAppend(a: seq<string>, b: seq<string>)
    ensures Clean(a + b) == Clean(a) + Clean(b)
  {
    if |a| > 0 {
      assert (a + b)[0] == a[0];
      assert (a + b)[1..] == a[1..] + b;
      CleanAppend(a[1..], b);
      var t := Strip(a[0]);
      if t != [] {
        assert [t] + (Clean(a[1..]) + Clean(b)) == ([t] + Clean(a[1..])) + Clean(b);
      }
    } else {
      assert a + b == b;
    }
  }

  /** Text before a comma contributes its items before the text after it:
      parsing keeps the order in which items appear. */
  lemma {:induction false} ParseAtComma(a: string, b: string)
    ensures Parse(a + [','] + b) == Parse(a) + Parse(b)
  {
    SplitAtComma(a, b);
    CleanAppend(Split(a), Split(b));
  }

  /** The items of a parse are exactly the non-empty stripped fragments. */
  lemma {:induction false} CleanMembers(fragments: seq<string>, x: string)
    ensures x in Clean(fragments) <==> x != [] && exists i :: 0 <= i < |fragments| && Strip(fragments[i]) == x
  {
    if |fragments| > 0 {
      CleanMembers(fragments[1..], x);
      if x != [] && Strip(fragments[0]) != x && x !in Clean(fragments[1..]) {
        forall i | 0 <= i < |fragments| ensures Strip(fragments[i]) != x {
          if i > 0 {
            assert fragments[i] == fragments[1..][i - 1];
          }
        }
      }
      if x != [] && x in Clean(fragments[1..]) {
        var j :| 0 <= j < |fragments[1..]| && Strip(fragments[1..][j]) == x;
        assert Strip(fragments[j + 1]) == x;
      }
    }
  }

  /** A whitespace character in front of the text changes nothing. */
  lemma ParseSpacePrefix(c: char, t: string)
    requires IsSpace(c)
    ensures Parse([c] + t) == Parse(t)
  {
    SplitCommaFreePrefix([c], t);
    var f := Split(t);
    StripSpacePrefix(c, f[0]);
    assert f == [f[0]] + f[1..];
    CleanAppend([[c] + f[0]], f[1..]);
    CleanAppend([f[0]], f[1..]);
  }

  /** A single item parses to itself. */
  lemma ParseItem(x: string)
    requires IsItem(x)
    ensures Parse(x) == [x]
  {
    ParseCommaFree(x);
  }

  /** Comma-free text is one fragment: it parses to its stripped form, or to
      nothing when that is empty. */
  lemma {:induction false} ParseCommaFree(a: string)
    requires ',' !in a
    ensures Parse(a) == if Strip(a) == [] then [] else [Strip(a)]
  {
    SplitCommaFree(a);
    assert Clean([a]) == (if Strip(a) == [] then [] else [Strip(a)]) + Clean([]);
  }

  /** The `", "`-join of two or more items is the first item, a comma, and a
      space in front of the join of the rest. */
  lemma JoinCons(xs: seq<string>)
    requires |xs| >= 2
    ensures Join(xs) == xs[0] + [','] + ([' '] + Join(xs[1..]))
  {
  }

  /** Round trip: parsing the `", "`-join of a list of items gives the list back,
      so saving an unchanged prefilled form stores the same list. */
  lemma {:induction false} ParseJoin(xs: seq<string>)
    requires AllItems(xs)
    ensures Parse(Join(xs)) == xs
  {
    if |xs| == 0 {
      ParseEmpty();
    } else if |xs| == 1 {
      assert IsItem(xs[0]);
      ParseItem(xs[0]);
    } else {
      var tail := xs[1..];
      assert AllItems(tail) by {
        forall i | 0 <= i < |tail| ensures IsItem(tail[i]) {
          assert tail[i] == xs[i + 1];
        }
      }
      ParseJoin(tail);
      ParseJoinStep(xs);
    }
  }

  /** The empty text has no items. */
  lemma ParseEmpty()
    ensures Parse("") == []
  {
    assert Split("") == [""];
    assert Strip("") == "";
  }

  /** One step of the round trip: if the rest of a list round-trips, so does
      the list with its first item in front. */
  lemma ParseJoinStep(xs: seq<string>)
    requires |xs| >= 2 && IsItem(xs[0])
    requires Parse(Join(xs[1..])) == xs[1..]
    ensures Parse(Join(xs)) == xs
  {
    JoinCons(xs);
    ParseItemThenRest(xs[0], Join(xs[1..]));
    assert xs == [xs[0]] + xs[1..];
  }

  /** An item, a comma, a space and more text parse to the item followed by
      the items of that text. */
  lemma ParseItemThenRest(x: string, rest: string)
    requires IsItem(x)
    ensures Parse(x + [','] + ([' '] + rest)) == [x] + Parse(rest)
  {
    ParseAtComma(x, [' '] + rest);
    ParseSpacePrefix(' ', rest);
    ParseItem(x);
  }

  /** Parsing is idempotent through the form: parse, prefill, parse again. */
  lemma {:induction false} ParseIdempotent(text: string)
    ensures Parse(Join(Parse(text))) == Parse(text)
  {
    ParseJoin(Parse(text));
  }

  /** Strips a fragment with one space at each end. */
  lemma StripPadded(w: string)
    requires IsItem(w)
    ensures Strip([' '] + w + [' ']) == w
  {
    var s := [' '] + w + [' '];
    assert s[1..] == w + [' '];
    assert TrimLeft(s) == w + [' '] by {
      assert IsStripped(w);
      assert TrimLeft(w + [' ']) == w + [' '];
    }
    assert (w + [' '])[..|w|] == w;
    assert TrimRight(w + [' ']) == TrimRight(w);
  }

  /** Parses a whitespace-only string to nothing. */
  lemma ParseBlank(s: string)
    requires forall i :: 0 <= i < |s| ==> IsSpace(s[i])
    ensures Parse(s) == []
  {
    ParseCommaFree(s);
  }

  /** A padded item parses to the bare item. */
  lemma ParsePadded(w: string)
    requires IsItem(w)
    ensures Parse([' '] + w + [' ']) == [w]
  {
    var a := [' '] + w + [' '];
    StripPadded(w);
    assert ',' !in a;
    ParseCommaFree(a);
  }

  /** The splitting law on the shape `" x ,<blanks>, y"` (for instance
      `" aspirin ,  , ibuprofen"`): the whitespace-only middle fragment is
      dropped and the two items are trimmed, in order. */
  lemma ParseTwoAroundBlank(x: string, m: string, y: string)
    requires IsItem(x) && IsItem(y)
    requires forall i :: 0 <= i < |m| ==> IsSpace(m[i])
    ensures Parse([' '] + x + [' '] + [','] + (m + [','] + ([' '] + y))) == [x, y]
  {
    var a := [' '] + x + [' '];
    ParseAtComma(a, m + [','] + ([' '] + y));
    ParsePadded(x);
    ParseBlankThenItem(m, y);
  }

  /** A whitespace-only fragment followed by a space-prefixed item parses to
      that item alone. */
  lemma ParseBlankThenItem(m: string, y: string)
    requires IsItem(y)
    requires forall i :: 0 <= i < |m| ==> IsSpace(m[i])
    ensures Parse(m + [','] + ([' '] + y)) == [y]
  {
    ParseAtComma(m, [' '] + y);
    ParseBlank(m);
    ParseSpacePrefix(' ', y);
    ParseItem(y);
  }
}
