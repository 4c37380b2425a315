/**
 * String primitives the mail merge relies on: Python's `in` and `str.replace`
 * on marker keys, `str.strip`, `str.capitalize`, the `re.sub` that makes a file
 * name safe, and the in-order join of run texts.
 */
module Text {

  /** Marker to value, in the insertion order of the source's dict literals. */
  type Mapping = seq<(string, string)>

  /** Every marker key is non-empty (the source's keys are fixed `{{...}}` literals). */
  predicate ValidMapping(m: Mapping)
  {
    forall i :: 0 <= i < |m| ==> |m[i].0| > 0
  }

  // ---------------------------------------------------------------------------
  // Substring search: Python's `k in s`
  // ---------------------------------------------------------------------------

  /** `k` occurs in `s` starting at position `i`. */
  predicate Occurs(s: string, k: string, i: nat)
  {
    i + |k| <= |s| && s[i..i + |k|] == k
  }

  predicate Contains(s: string, k: string)
  {
    exists i: nat | i <= |s| :: Occurs(s, k, i)
  }

  /** An occurrence inside `t` is an occurrence inside `x + t + y`, shifted by `|x|`. */
  lemma OccursShift(x: string, t: string, y: string, k: string, j: nat)
    requires Occurs(t, k, j)
    ensures Occurs(x + t + y, k, |x| + j)
  {
    assert (x + t + y)[|x| + j..|x| + j + |k|] == t[j..j + |k|];
  }

  lemma OccursInTail(s: string, k: string, i: nat)
    requires |s| > 0 && Occurs(s[1..], k, i)
    ensures Occurs(s, k, i + 1)
  {
    assert s[1..][i..i + |k|] == s[i + 1..i + 1 + |k|];
  }

  // ---------------------------------------------------------------------------
  // Python's `str.replace(k, v)`: left to right, non-overlapping
  // ---------------------------------------------------------------------------

  function ReplaceAll(s: string, k: string, v: string): string
    requires |k| > 0
    decreases |s|
  {
    if |s| < |k| then s
    else if s[..|k|] == k then v + ReplaceAll(s[|k|..], k, v)
    else [s[0]] + ReplaceAll(s[1..], k, v)
  }

  /** A key that does not occur leaves the text unchanged. */
  lemma {:induction false} ReplaceAllAbsent(s: string, k: string, v: string)
    requires |k| > 0 && !Contains(s, k)
    ensures ReplaceAll(s, k, v) == s
    decreases |s|
  {
    if |s| >= |k| {
      assert s[..|k|] != k by {
        if s[..|k|] == k { assert Occurs(s, k, 0); }
      }
      assert !Contains(s[1..], k) by {
        forall i: nat | i <= |s[1..]| && Occurs(s[1..], k, i) ensures false {
          OccursInTail(s, k, i);
        }
      }
      ReplaceAllAbsent(s[1..], k, v);
    }
  }

  /** A key that occurs is replaced at least once: the value shows up in the result. */
  lemma {:induction false} ReplaceAllPresent(s: string, k: string, v: string)
    requires |k| > 0 && Contains(s, k)
    ensures Contains(ReplaceAll(s, k, v), v)
    decreases |s|
  {
    var i: nat :| i <= |s| && Occurs(s, k, i);
    if s[..|k|] == k {
      assert Occurs(ReplaceAll(s, k, v), v, 0);
    } else {
      assert i > 0;
      assert s[1..][i - 1..i - 1 + |k|] == s[i..i + |k|];
      assert Occurs(s[1..], k, i - 1);
      ReplaceAllPresent(s[1..], k, v);
      var j: nat :| j <= |ReplaceAll(s[1..], k, v)| && Occurs(ReplaceAll(s[1..], k, v), v, j);
      OccursShift([s[0]], ReplaceAll(s[1..], k, v), "", v, j);
      assert [s[0]] + ReplaceAll(s[1..], k, v) + "" == ReplaceAll(s, k, v);
    }
  }

  /** Replacing a key by itself changes nothing. */
  lemma {:induction false} ReplaceAllByItself(s: string, k: string)
    requires |k| > 0
    ensures ReplaceAll(s, k, k) == s
    decreases |s|
  {
    if |s| >= |k| {
      if s[..|k|] == k {
        ReplaceAllByItself(s[|k|..], k);
        assert s == s[..|k|] + s[|k|..];
      } else {
        ReplaceAllByItself(s[1..], k);
        assert s == [s[0]] + s[1..];
      }
    }
  }

  /** No occurrence of `k` in `a + b` starts inside `a` and ends inside `b`. */
  predicate NoStraddle(a: string, b: string, k: string)
  {
    forall i: nat :: i < |a| < i + |k| ==> !Occurs(a + b, k, i)
  }

  lemma NoStraddleShift(a: string, b: string, k: string, d: nat)
    requires d <= |a| && NoStraddle(a, b, k)
    ensures NoStraddle(a[d..], b, k)
  {
    assert a[d..] + b == (a + b)[d..];
    forall i: nat | i < |a[d..]| < i + |k| ensures !Occurs(a[d..] + b, k, i) {
      assert !Occurs(a + b, k, i + d);
    }
  }

  /** One step of `ReplaceAll` when the key sits at the front of `a`. */
  lemma ReplaceAllFront(a: string, b: string, k: string, v: string)
    requires 0 < |k| <= |a| && a[..|k|] == k
    ensures ReplaceAll(a, k, v) == v + ReplaceAll(a[|k|..], k, v)
    ensures ReplaceAll(a + b, k, v) == v + ReplaceAll(a[|k|..] + b, k, v)
  {
    assert (a + b)[..|k|] == a[..|k|];
    assert (a + b)[|k|..] == a[|k|..] + b;
  }

  /** One step of `ReplaceAll` when the key does not sit at the front of `a + b`. */
  lemma ReplaceAllSkip(a: string, b: string, k: string, v: string)
    requires 0 < |k| <= |a + b| && 0 < |a| && (a + b)[..|k|] != k
    ensures ReplaceAll(a, k, v) == [a[0]] + ReplaceAll(a[1..], k, v)
    ensures ReplaceAll(a + b, k, v) == [a[0]] + ReplaceAll(a[1..] + b, k, v)
  {
    if |a| >= |k| {
      assert a[..|k|] == (a + b)[..|k|];
    } else {
      assert a == [a[0]] + a[1..];
    }
    assert (a + b)[1..] == a[1..] + b;
  }

  /**
   * When no occurrence crosses the boundary between `a` and `b`, replacing in
   * the joined text is the same as replacing in each part and joining.
   */
  lemma {:induction false} ReplaceAllSplit(a: string, b: string, k: string, v: string)
    requires |k| > 0 && NoStraddle(a, b, k)
    ensures ReplaceAll(a + b, k, v) == ReplaceAll(a, k, v) + ReplaceAll(b, k, v)
    decreases |a|
  {
    if a == [] {
      assert a + b == b;
      assert ReplaceAll(a, k, v) == [];
    } else if |a + b| < |k| {
      assert ReplaceAll(a + b, k, v) == a + b;
      assert ReplaceAll(a, k, v) == a;
      assert ReplaceAll(b, k, v) == b;
    } else if (a + b)[..|k|] == k {
      assert Occurs(a + b, k, 0);
      NoStraddleShift(a, b, k, |k|);
      ReplaceAllSplit(a[|k|..], b, k, v);
      SplitAfterFront(a, b, k, v);
    } else {
      NoStraddleShift(a, b, k, 1);
      ReplaceAllSplit(a[1..], b, k, v);
      SplitAfterSkip(a, b, k, v);
    }
  }

  /** The step of `ReplaceAllSplit` that consumes a key at the front of `a`. */
  lemma SplitAfterFront(a: string, b: string, k: string, v: string)
    requires 0 < |k| <= |a| && a[..|k|] == k
    requires ReplaceAll(a[|k|..] + b, k, v) == ReplaceAll(a[|k|..], k, v) + ReplaceAll(b, k, v)
    ensures ReplaceAll(a + b, k, v) == ReplaceAll(a, k, v) + ReplaceAll(b, k, v)
  {
    ReplaceAllFront(a, b, k, v);
    assert v + (ReplaceAll(a[|k|..], k, v) + ReplaceAll(b, k, v))
        == (v + ReplaceAll(a[|k|..], k, v)) + ReplaceAll(b, k, v);
  }

  /** The step of `ReplaceAllSplit` that keeps the first character of `a`. */
  lemma SplitAfterSkip(a: string, b: string, k: string, v: string)
    requires 0 < |k| <= |a + b| && 0 < |a| && (a + b)[..|k|] != k
    requires ReplaceAll(a[1..] + b, k, v) == ReplaceAll(a[1..], k, v) + ReplaceAll(b, k, v)
    ensures ReplaceAll(a + b, k, v) == ReplaceAll(a, k, v) + ReplaceAll(b, k, v)
  {
    ReplaceAllSkip(a, b, k, v);
    assert [a[0]] + (ReplaceAll(a[1..], k, v) + ReplaceAll(b, k, v))
        == ([a[0]] + ReplaceAll(a[1..], k, v)) + ReplaceAll(b, k, v);
  }

  // ---------------------------------------------------------------------------
  // One replacement per mapping entry, in mapping order
  // ---------------------------------------------------------------------------

  /** `ReplaceAll` for each key of `m` in turn, each on the text the previous left. */
  function FoldReplace(s: string, m: Mapping): string
    requires ValidMapping(m)
    decreases |m|
  {
    if m == [] then s else FoldReplace(ReplaceAll(s, m[0].0, m[0].1), m[1..])
  }

  lemma {:induction false} FoldReplaceSnoc(s: string, m: Mapping, k: string, v: string)
    requires ValidMapping(m) && |k| > 0
    ensures ValidMapping(m + [(k, v)])
    ensures FoldReplace(s, m + [(k, v)]) == ReplaceAll(FoldReplace(s, m), k, v)
    decreases |m|
  {
    if m != [] {
      assert (m + [(k, v)])[1..] == m[1..] + [(k, v)];
      FoldReplaceSnoc(ReplaceAll(s, m[0].0, m[0].1), m[1..], k, v);
    }
  }

  /** When no key of the mapping occurs in the text, the text comes back unchanged. */
  lemma {:induction false} FoldReplaceAbsent(s: string, m: Mapping)
    requires ValidMapping(m)
    requires forall j :: 0 <= j < |m| ==> !Contains(s, m[j].0)
    ensures FoldReplace(s, m) == s
    decreases |m|
  {
    if m != [] {
      ReplaceAllAbsent(s, m[0].0, m[0].1);
      FoldReplaceAbsent(s, m[1..]);
    }
  }

  /** The empty text has no markers to replace. */
  lemma FoldReplaceEmpty(m: Mapping)
    requires ValidMapping(m)
    ensures FoldReplace("", m) == ""
  {
    forall j | 0 <= j < |m| ensures !Contains("", m[j].0) {
    }
    FoldReplaceAbsent("", m);
  }

  // ---------------------------------------------------------------------------
  // Joining run texts: `"".join(run.text for run in p.runs)` and `p.text`
  // ---------------------------------------------------------------------------

  function Concat(runs: seq<string>): string
  {
    if runs == [] then "" else runs[0] + Concat(runs[1..])
  }

  lemma {:induction false} ConcatAppend(a: seq<string>, b: seq<string>)
    ensures Concat(a + b) == Concat(a) + Concat(b)
    decreases |a|
  {
    if a == [] {
      assert a + b == b;
    } else {
      assert (a + b)[1..] == a[1..] + b;
      ConcatAppend(a[1..], b);
    }
  }

  lemma ConcatSingle(x: string)
    ensures Concat([x]) == x
  {
    assert Concat([x]) == x + Concat([]);
  }

  /** A key inside one run is a key inside the paragraph's joined text. */
  lemma ContainsInConcat(runs: seq<string>, i: nat, k: string)
    requires i < |runs| && Contains(runs[i], k)
    ensures Contains(Concat(runs), k)
  {
    var j: nat :| j <= |runs[i]| && Occurs(runs[i], k, j);
    var x, y := Concat(runs[..i]), Concat(runs[i + 1..]);
    assert runs == runs[..i] + [runs[i]] + runs[i + 1..];
    ConcatAppend(runs[..i] + [runs[i]], runs[i + 1..]);
    ConcatAppend(runs[..i], [runs[i]]);
    ConcatSingle(runs[i]);
    assert Concat(runs) == x + runs[i] + y;
    OccursShift(x, runs[i], y, k, j);
    assert Occurs(Concat(runs), k, |x| + j);
  }

  // ---------------------------------------------------------------------------
  // `str.strip()` and `str.capitalize()`
  // ---------------------------------------------------------------------------

  /** Python's `str.isspace` for one code point. */
  predicate IsSpace(c: char)
  {
    var n := c as int;
    (9 <= n <= 13) || (28 <= n <= 32) || n == 0x85 || n == 0xA0 || n == 0x1680
    || (0x2000 <= n <= 0x200A) || n == 0x2028 || n == 0x2029 || n == 0x202F
    || n == 0x205F || n == 0x3000
  }

  predicate AllSpace(s: string)
  {
    forall i :: 0 <= i < |s| ==> IsSpace(s[i])
  }

  /** `s` neither starts nor ends with whitespace. */
  predicate Trimmed(s: string)
  {
    s == [] || (!IsSpace(s[0]) && !IsSpace(s[|s| - 1]))
  }

  /** How many whitespace characters `s` starts with. */
  function LeadingSpace(s: string): (n: nat)
    ensures n <= |s|
    decreases |s|
  {
    if |s| > 0 && IsSpace(s[0]) then LeadingSpace(s[1..]) + 1 else 0
  }

  /** The leading run is all whitespace, and the character after it is not. */
  lemma {:induction false} LeadingSpaceSpec(s: string)
    ensures forall i :: 0 <= i < LeadingSpace(s) ==> IsSpace(s[i])
    ensures LeadingSpace(s) < |s| ==> !IsSpace(s[LeadingSpace(s)])
    decreases |s|
  {
    if |s| > 0 && IsSpace(s[0]) {
      LeadingSpaceSpec(s[1..]);
      assert forall i :: 1 <= i < LeadingSpace(s) ==> s[i] == s[1..][i - 1];
    }
  }

  /** How many whitespace characters `s` ends with. */
  function TrailingSpace(s: string): (n: nat)
    ensures n <= |s|
    decreases |s|
  {
    if |s| > 0 && IsSpace(s[|s| - 1]) then TrailingSpace(s[..|s| - 1]) + 1 else 0
  }

  /** The trailing run is all whitespace, and the character before it is not. */
  lemma {:induction false} TrailingSpaceSpec(s: string)
    ensures forall i :: |s| - TrailingSpace(s) <= i < |s| ==> IsSpace(s[i])
    ensures TrailingSpace(s) < |s| ==> !IsSpace(s[|s| - TrailingSpace(s) - 1])
    decreases |s|
  {
    if |s| > 0 && IsSpace(s[|s| - 1]) {
      TrailingSpaceSpec(s[..|s| - 1]);
    }
  }

  /** Python's `str.strip()` with no argument. */
  function Strip(s: string): (r: string)
    ensures |r| <= |s| && Trimmed(r)
  {
    var l := s[LeadingSpace(s)..];
    LeadingSpaceSpec(s);
    TrailingSpaceSpec(l);
    l[..|l| - TrailingSpace(l)]
  }

  /** `r` sits at position `i` of `s` with only whitespace before and after it. */
  predicate SpaceAround(s: string, r: string, i: nat)
  {
    i + |r| <= |s| && s[i..i + |r|] == r && AllSpace(s[..i]) && AllSpace(s[i + |r|..])
  }

  /**
   * `Strip` removes exactly the leading and the trailing whitespace: what is
   * left is a contiguous part of the input, with only whitespace around it.
   */
  lemma StripRemovesOnlySpace(s: string)
    ensures exists i: nat | i <= |s| :: SpaceAround(s, Strip(s), i)
  {
    var i := LeadingSpace(s);
    var l := s[i..];
    var r := l[..|l| - TrailingSpace(l)];
    assert Strip(s) == r;
    LeadingSpaceSpec(s);
    TrailingSpaceSpec(l);
    assert AllSpace(s[..i]) by {
      forall j | 0 <= j < i ensures IsSpace(s[..i][j]) {
        assert s[..i][j] == s[j];
      }
    }
    var e := i + |r|;
    assert AllSpace(s[e..]) by {
      forall j | 0 <= j < |s| - e ensures IsSpace(s[e..][j]) {
        assert s[e..][j] == l[|r| + j];
      }
    }
    assert s[i..i + |r|] == r;
    assert SpaceAround(s, r, i);
  }

  /** Stripping text that is already trimmed changes nothing. */
  lemma StripTrimmed(s: string)
    requires Trimmed(s)
    ensures Strip(s) == s
  {
  }

  /** ASCII upper case; other code points are left as they are. */
  function Upper(c: char): char
  {
    if 'a' <= c <= 'z' then (c as int - 32) as char else c
  }

  /** ASCII lower case; other code points are left as they are. */
  function Lower(c: char): char
  {
    if 'A' <= c <= 'Z' then (c as int + 32) as char else c
  }

  /** Python's `str.capitalize()`: first character upper case, the rest lower case. */
  function Capitalize(s: string): (r: string)
    ensures |r| == |s|
    ensures |s| > 0 ==> r[0] == Upper(s[0])
    ensures forall i :: 1 <= i < |s| ==> r[i] == Lower(s[i])
  {
    seq(|s|, i requires 0 <= i < |s| => if i == 0 then Upper(s[0]) else Lower(s[i]))
  }

  // ---------------------------------------------------------------------------
  // `re.sub(r'[^a-zA-Z0-9_\.]', '_', name)`
  // ---------------------------------------------------------------------------

  /** The characters the file-name pattern lets through. */
  predicate Allowed(c: char)
  {
    ('a' <= c <= 'z') || ('A' <= c <= 'Z') || ('0' <= c <= '9') || c == '_' || c == '.'
  }

  function SanitizeChar(c: char): char
  {
    if Allowed(c) then c else '_'
  }

  /** Every character outside `[A-Za-z0-9_.]` becomes `_`. */
  function Sanitize(s: string): (r: string)
    ensures |r| == |s|
    ensures forall i :: 0 <= i < |r| ==> Allowed(r[i])
    ensures forall i :: 0 <= i < |s| && Allowed(s[i]) ==> r[i] == s[i]
    ensures forall i :: 0 <= i < |s| && !Allowed(s[i]) ==> r[i] == '_'
  {
    seq(|s|, i requires 0 <= i < |s| => SanitizeChar(s[i]))
  }
}
