/**
 * The slug expression shared by lib/eventStore.ts and app/api/events/route.ts:
 *
 *   name.toLowerCase().replace(/\s+/g, '-').replace(/[^\w-]/g, '')
 *
 * modelled as three functions on strings (ASCII only), with the properties the
 * application relies on: a slug is URL-safe and slugging is idempotent.
 */
module Slug {
  import opened Text

  /** The characters a slug may hold: `a-z`, `0-9`, `_` and `-`. */
  predicate IsSlugChar(c: char) {
    IsLower(c) || IsDigit(c) || c == '_' || c == '-'
  }

  /** The characters the final `replace(/[^\w-]/g, '')` keeps. */
  predicate IsKept(c: char) {
    IsWordChar(c) || c == '-'
  }

  predicate NoUpper(s: string) {
    forall i | 0 <= i < |s| :: !IsUpper(s[i])
  }

  predicate NoSpace(s: string) {
    forall i | 0 <= i < |s| :: !IsSpace(s[i])
  }

  predicate AllSpace(s: string) {
    forall i | 0 <= i < |s| :: IsSpace(s[i])
  }

  /** `toLowerCase()`: every ASCII capital replaced by its small letter. */
  function Lower(s: string): (r: string)
    ensures |r| == |s| && NoUpper(r)
    ensures forall i | 0 <= i < |s| :: r[i] == ToLower(s[i])
    ensures NoUpper(s) ==> r == s
  {
    seq(|s|, i requires 0 <= i < |s| => ToLower(s[i]))
  }

  /** The input with its leading whitespace removed; a suffix of the input. */
  function SkipSpaces(s: string): (r: string)
    ensures |r| <= |s|
    ensures r == [] || !IsSpace(r[0])
    ensures NoUpper(s) ==> NoUpper(r)
  {
    if s != [] && IsSpace(s[0]) then SkipSpaces(s[1..]) else s
  }

  /** What SkipSpaces leaves is a suffix of its input. */
  lemma {:induction false} SkipSpacesSuffix(s: string)
    ensures SkipSpaces(s) == s[|s| - |SkipSpaces(s)|..]
  {
    if s != [] && IsSpace(s[0]) {
      SkipSpacesSuffix(s[1..]);
      assert s[1..][|s| - 1 - |SkipSpaces(s)|..] == s[|s| - |SkipSpaces(s)|..];
    }
  }

  /**
   * `replace(/\s+/g, '-')`: every maximal run of whitespace becomes one `-`;
   * all other characters are kept in order.
   */
  function CollapseSpaces(s: string): (r: string)
    ensures NoSpace(r)
    ensures NoUpper(s) ==> NoUpper(r)
    decreases |s|
  {
    if s == [] then []
    else if IsSpace(s[0]) then "-" + CollapseSpaces(SkipSpaces(s[1..]))
    else [s[0]] + CollapseSpaces(s[1..])
  }

  /** `replace(/[^\w-]/g, '')`: every character other than `\w` and `-` is dropped. */
  function StripUnsafe(s: string): (r: string)
    ensures |r| <= |s|
    ensures forall i | 0 <= i < |r| :: IsKept(r[i])
    ensures NoUpper(s) ==> NoUpper(r)
    ensures (forall i | 0 <= i < |s| :: IsKept(s[i])) ==> r == s
    ensures multiset(r) <= multiset(s)
    ensures forall c | IsKept(c) :: multiset(r)[c] == multiset(s)[c]
  {
    if s == [] then []
    else
      assert s == [s[0]] + s[1..];
      if IsKept(s[0]) then [s[0]] + StripUnsafe(s[1..])
      else StripUnsafe(s[1..])
  }

  /** The slug of an event name (lib/eventStore.ts:15, app/api/events/route.ts:66). */
  function Slugify(name: string): (r: string)
    ensures forall i | 0 <= i < |r| :: IsSlugChar(r[i])
    ensures NoSpace(r)
  {
    StripUnsafe(CollapseSpaces(Lower(name)))
  }

  /** A string without whitespace passes the whitespace replacement unchanged. */
  lemma {:induction false} CollapseNoSpace(s: string)
    requires NoSpace(s)
    ensures CollapseSpaces(s) == s
  {
    if s != [] {
      CollapseNoSpace(s[1..]);
    }
  }

  /** A non-empty run of whitespace becomes exactly one `-`. */
  lemma CollapseRun(w: string)
    requires w != [] && AllSpace(w)
    ensures CollapseSpaces(w) == "-"
  {
    SkipSpacesAll(w[1..]);
  }

  /** Skipping leading whitespace consumes everything exactly when everything is whitespace. */
  lemma {:induction false} SkipSpacesAll(w: string)
    ensures SkipSpaces(w) == [] <==> AllSpace(w)
  {
    if w != [] && IsSpace(w[0]) {
      SkipSpacesAll(w[1..]);
      assert AllSpace(w) <==> AllSpace(w[1..]) by {
        if AllSpace(w[1..]) {
          forall i | 0 <= i < |w| ensures IsSpace(w[i]) {
            if i > 0 { assert w[i] == w[1..][i - 1]; }
          }
        }
      }
    }
  }

  /** Skipping leading whitespace of `a + z`: it stops inside `a` unless `a` is all whitespace. */
  lemma {:induction false} SkipSpacesAppend(a: string, z: string)
    ensures SkipSpaces(a + z) == if AllSpace(a) then SkipSpaces(z) else SkipSpaces(a) + z
  {
    if a == [] {
      assert a + z == z;
    } else {
      assert (a + z)[0] == a[0];
      assert (a + z)[1..] == a[1..] + z;
      if IsSpace(a[0]) {
        SkipSpacesAppend(a[1..], z);
        assert AllSpace(a) <==> AllSpace(a[1..]) by {
          if AllSpace(a[1..]) {
            forall i | 0 <= i < |a| ensures IsSpace(a[i]) {
              if i > 0 { assert a[i] == a[1..][i - 1]; }
            }
          }
        }
      } else {
        assert !AllSpace(a);
        assert SkipSpaces(a) == a;
      }
    }
  }

  /**
   * The whitespace replacement works piecewise on any split that does not cut
   * a whitespace run in two.
   */
  lemma {:induction false} CollapseAppend(x: string, z: string)
    requires x == [] || z == [] || !IsSpace(x[|x| - 1]) || !IsSpace(z[0])
    ensures CollapseSpaces(x + z) == CollapseSpaces(x) + CollapseSpaces(z)
    decreases |x|
  {
    if x == [] {
      assert x + z == z;
    } else if z == [] {
      assert x + z == x;
    } else if !IsSpace(x[0]) {
      assert (x + z)[1..] == x[1..] + z;
      CollapseAppend(x[1..], z);
    } else {
      assert (x + z)[1..] == x[1..] + z;
      SkipSpacesAppend(x[1..], z);
      if AllSpace(x[1..]) {
        SkipSpacesAll(x[1..]);
        assert !IsSpace(z[0]) by {
          if |x| > 1 { assert x[|x| - 1] == x[1..][|x| - 2]; }
        }
        assert SkipSpaces(z) == z;
      } else {
        var t := SkipSpaces(x[1..]);
        SkipSpacesSuffix(x[1..]);
        SkipSpacesAll(x[1..]);
        assert t != [];
        assert t[|t| - 1] == x[|x| - 1];
        CollapseAppend(t, z);
      }
    }
  }

  /** The whole whitespace rule: the run `w` between `x` and `y` becomes a single `-`. */
  lemma RunBecomesDash(x: string, w: string, y: string)
    requires x == [] || !IsSpace(x[|x| - 1])
    requires w != [] && AllSpace(w)
    requires y == [] || !IsSpace(y[0])
    ensures CollapseSpaces(x + w + y) == CollapseSpaces(x) + "-" + CollapseSpaces(y)
  {
    CollapseAppend(w, y);
    CollapseRun(w);
    assert x + w + y == x + (w + y);
    CollapseAppend(x, w + y);
  }

  /** The character filter works piecewise. */
  lemma {:induction false} StripAppend(a: string, b: string)
    ensures StripUnsafe(a + b) == StripUnsafe(a) + StripUnsafe(b)
  {
    if a == [] {
      assert a + b == b;
    } else {
      assert (a + b)[1..] == a[1..] + b;
      StripAppend(a[1..], b);
    }
  }

  /** Slugging a slug changes nothing. */
  lemma SlugIdempotent(name: string)
    ensures Slugify(Slugify(name)) == Slugify(name)
  {
    var s := Slugify(name);
    assert NoUpper(s);
    CollapseNoSpace(s);
  }

  /** The example from the event-creation form: "Lake Trip 2025" becomes "lake-trip-2025". */
  lemma SlugExample(name: string)
    requires name == "Lake Trip 2025"
    ensures Slugify(name) == "lake-trip-2025"
  {
    var lowered := Lower(name);
    LowerExample(name);
    CollapseExample(lowered);
    var collapsed := CollapseSpaces(lowered);
    assert forall i | 0 <= i < |collapsed| :: IsKept(collapsed[i]);
  }

  lemma LowerExample(name: string)
    requires name == "Lake Trip 2025"
    ensures Lower(name) == "lake trip 2025"
  {
    var r := Lower(name);
    assert r[0] == ToLower('L') == 'l';
    assert r[5] == ToLower('T') == 't';
    assert forall i | 0 <= i < |name| && i != 0 && i != 5 :: !IsUpper(name[i]);
  }

  /** Words separated by single blanks come out joined by dashes. */
  lemma CollapseThreeWords(a: string, b: string, c: string)
    requires a != [] && b != [] && c != []
    requires NoSpace(a) && NoSpace(b) && NoSpace(c)
    ensures CollapseSpaces(a + " " + b + " " + c) == a + "-" + b + "-" + c
  {
    CollapseNoSpace(a);
    CollapseNoSpace(b);
    CollapseNoSpace(c);
    RunBecomesDash(b, " ", c);
    assert a + " " + b + " " + c == a + " " + (b + " " + c);
    RunBecomesDash(a, " ", b + " " + c);
  }

  lemma CollapseExample(s: string)
    requires s == "lake trip 2025"
    ensures CollapseSpaces(s) == "lake-trip-2025"
  {
    var a, b, c := "lake", "trip", "2025";
    assert s == a + " " + b + " " + c;
    CollapseThreeWords(a, b, c);
  }
}
