/**
  Character classes and the Python string operations that the indexer and
  the query engine use: `c.lower()` on ASCII, `str.split()`, `t in s`,
  `s.index(c)`, slicing `s[a:b]` and the ordering `<` on `str`.
 */
module Text {

  /** `c.lower()` for ASCII: 'A'..'Z' become 'a'..'z'; every other character is left as it is. */
  function Lower(c: char): char
  {
    if 'A' <= c <= 'Z' then (c as int + 32) as char else c
  }

  predicate IsAsciiLower(c: char)
  {
    'a' <= c <= 'z'
  }

  predicate NotAsciiLower(c: char)
  {
    !IsAsciiLower(c)
  }

  /** The test of refine_tokens: `97 <= ord(c.lower()) <= 122`. */
  predicate IsLetter(c: char)
  {
    IsAsciiLower(Lower(c))
  }

  /** `s.lower()` for ASCII, character by character. */
  function LowerAll(s: string): (r: string)
    ensures |r| == |s|
    ensures forall i :: 0 <= i < |s| ==> r[i] == Lower(s[i])
  {
    if s == [] then [] else [Lower(s[0])] + LowerAll(s[1..])
  }

  /** The characters for which Python's `str.isspace()` holds, the separators of `str.split()`. */
  predicate IsSpace(c: char)
  {
    var n := c as int;
    || 9 <= n <= 13 || 28 <= n <= 32 || n == 0x85 || n == 0xA0 || n == 0x1680
    || 0x2000 <= n <= 0x200A || n == 0x2028 || n == 0x2029 || n == 0x202F
    || n == 0x205F || n == 0x3000
  }

  // ---------------------------------------------------------------------
  // Substrings, `index` and slices

  /** t occurs in s starting at position i. */
  predicate OccursAt(s: string, t: string, i: nat)
  {
    i + |t| <= |s| && s[i..i + |t|] == t
  }

  /** Python's `t in s` on strings. */
  function Contains(s: string, t: string): (b: bool)
    ensures b <==> exists i: nat :: OccursAt(s, t, i)
    decreases |s|
  {
    if |t| > |s| then false
    else if s[..|t|] == t then assert OccursAt(s, t, 0); true
    else
      var b := Contains(s[1..], t);
      assert forall i: nat :: OccursAt(s[1..], t, i) <==> OccursAt(s, t, i + 1) by {
        forall i: nat ensures OccursAt(s[1..], t, i) <==> OccursAt(s, t, i + 1) {
          if i + 1 + |t| <= |s| {
            assert s[1..][i..i + |t|] == s[i + 1..i + 1 + |t|];
          }
        }
      }
      assert !OccursAt(s, t, 0);
      assert (exists i: nat :: OccursAt(s, t, i)) ==> exists i: nat :: OccursAt(s[1..], t, i) by {
        if i: nat :| OccursAt(s, t, i) {
          assert i != 0;
          assert OccursAt(s[1..], t, i - 1);
        }
      }
      b
  }

  /** The position of the first c in s, or |s| when there is none;
      Python's `s.index(c)` raises exactly when the result is |s|. */
  function IndexOf(s: string, c: char): (r: nat)
    ensures r <= |s|
    ensures r < |s| ==> s[r] == c
    ensures forall j :: 0 <= j < r ==> s[j] != c
    ensures r == |s| <==> c !in s
  {
    if s == [] then 0
    else if s[0] == c then 0
    else 1 + IndexOf(s[1..], c)
  }

  /** Python's normalisation of a slice bound i for a sequence of length n:
      a negative bound counts from the end, and the result is clamped to 0..n. */
  function SliceBound(i: int, n: nat): (r: nat)
    ensures r <= n
    ensures 0 <= i <= n ==> r == i
  {
    if i < 0 then (if i + n < 0 then 0 else i + n)
    else if i > n then n
    else i
  }

  /** Python's `s[a:b]` (step 1): never fails, and is empty when the
      normalised bounds are out of order. */
  function PySlice(s: string, a: int, b: int): (r: string)
    ensures 0 <= a <= b <= |s| ==> r == s[a..b]
    ensures |r| <= |s|
    ensures SliceBound(a, |s|) < SliceBound(b, |s|) ==> OccursAt(s, r, SliceBound(a, |s|))
    ensures SliceBound(a, |s|) < SliceBound(b, |s|) ==> |r| == SliceBound(b, |s|) - SliceBound(a, |s|)
    ensures SliceBound(a, |s|) >= SliceBound(b, |s|) ==> r == []
  {
    var lo, hi := SliceBound(a, |s|), SliceBound(b, |s|);
    if lo < hi then s[lo..hi] else []
  }

  // ---------------------------------------------------------------------
  // Splitting into maximal runs

  /** Length of the longest prefix of s free of separator characters. */
  function RunLength(s: string, sep: char -> bool): (k: nat)
    ensures k <= |s|
    ensures forall j :: 0 <= j < k ==> !sep(s[j])
    ensures k < |s| ==> sep(s[k])
  {
    if s == [] || sep(s[0]) then 0 else 1 + RunLength(s[1..], sep)
  }

  /** The maximal non-empty runs of non-separator characters of s, in order
      (with sep = IsSpace this is Python's `s.split()`). */
  function Fields(s: string, sep: char -> bool): (r: seq<string>)
    ensures forall i :: 0 <= i < |r| ==> r[i] != []
    ensures forall i, j :: 0 <= i < |r| && 0 <= j < |r[i]| ==> !sep(r[i][j])
    ensures s != [] && !sep(s[|s| - 1]) ==> r != []
    decreases |s|
  {
    if s == [] then []
    else if sep(s[0]) then Fields(s[1..], sep)
    else
      var k := RunLength(s, sep);
      [s[..k]] + Fields(s[k..], sep)
  }

  function Concat(ss: seq<string>): string
  {
    if ss == [] then [] else ss[0] + Concat(ss[1..])
  }

  /** The characters of s that are not separators, in order. */
  function Without(s: string, sep: char -> bool): string
  {
    if s == [] then [] else (if sep(s[0]) then [] else [s[0]]) + Without(s[1..], sep)
  }

  lemma {:induction false} WithoutRun(s: string, k: nat, sep: char -> bool)
    requires k <= |s|
    requires forall j :: 0 <= j < k ==> !sep(s[j])
    ensures Without(s, sep) == s[..k] + Without(s[k..], sep)
  {
    if k > 0 {
      WithoutRun(s[1..], k - 1, sep);
      assert s[1..][..k - 1] == s[1..k];
      assert s[1..][k - 1..] == s[k..];
      assert s[..k] == [s[0]] + s[1..k];
    }
  }

  /** Splitting loses nothing but separators: the fields, concatenated, are
      the non-separator characters of s. */
  lemma {:induction false} FieldsConcat(s: string, sep: char -> bool)
    ensures Concat(Fields(s, sep)) == Without(s, sep)
    decreases |s|
  {
    if s == [] {
    } else if sep(s[0]) {
      FieldsConcat(s[1..], sep);
    } else {
      var k := RunLength(s, sep);
      FieldsConcat(s[k..], sep);
      WithoutRun(s, k, sep);
      var r := [s[..k]] + Fields(s[k..], sep);
      assert r[1..] == Fields(s[k..], sep);
    }
  }

  /** A non-empty run is its own single field. */
  lemma {:induction false} FieldsOfRun(s: string, sep: char -> bool)
    requires s != []
    requires forall j :: 0 <= j < |s| ==> !sep(s[j])
    ensures Fields(s, sep) == [s]
  {
    var k := RunLength(s, sep);
    assert !sep(s[0]);
    assert k == |s|;
    assert s[..k] == s;
    assert s[k..] == [];
    assert Fields(s, sep) == [s[..k]] + Fields(s[k..], sep);
  }

  /** A run, then a separator: the run (if not empty) is a field of its own
      and splitting goes on after the separator. */
  lemma FieldsAfterSeparator(x: string, d: char, t: string, sep: char -> bool)
    requires forall j :: 0 <= j < |x| ==> !sep(x[j])
    requires sep(d)
    ensures Fields(x + [d] + t, sep) == (if x == [] then [] else [x]) + Fields(t, sep)
  {
    var s := x + [d] + t;
    if x == [] {
      assert s[1..] == t;
    } else {
      var k := RunLength(s, sep);
      assert s[|x|] == d;
      assert k == |x|;
      assert s[..k] == x;
      assert s[k..][1..] == t;
    }
  }

  // ---------------------------------------------------------------------
  // Ordering of strings

  /** Python's `a < b` on `str`: code point by code point, a proper prefix first. */
  predicate Less(a: string, b: string)
    decreases |a|
  {
    if a == [] then b != []
    else b != [] && (a[0] < b[0] || (a[0] == b[0] && Less(a[1..], b[1..])))
  }

  lemma {:induction false} LessIrreflexive(a: string)
    ensures !Less(a, a)
    decreases |a|
  {
    if a != [] {
      LessIrreflexive(a[1..]);
    }
  }

  lemma {:induction false} LessTransitive(a: string, b: string, c: string)
    requires Less(a, b) && Less(b, c)
    ensures Less(a, c)
    decreases |a|
  {
    if a != [] && a[0] == b[0] && b[0] == c[0] {
      LessTransitive(a[1..], b[1..], c[1..]);
    }
  }

  lemma {:induction false} LessTotal(a: string, b: string)
    ensures a == b || Less(a, b) || Less(b, a)
    decreases |a|
  {
    if a != [] && b != [] && a[0] == b[0] {
      LessTotal(a[1..], b[1..]);
      if a[1..] == b[1..] {
        assert a == [a[0]] + a[1..] && b == [b[0]] + b[1..];
      }
    }
  }

  lemma LessAsymmetric(a: string, b: string)
    requires Less(a, b)
    ensures !Less(b, a)
  {
    if Less(b, a) {
      LessTransitive(a, b, a);
      LessIrreflexive(a);
    }
  }

  /** Every non-empty finite set of strings has a least element. */
  lemma {:induction false} HasLeast(keys: set<string>)
    requires keys != {}
    ensures exists m :: IsLeast(m, keys)
    decreases |keys|
  {
    var x :| x in keys;
    if keys == {x} {
      assert IsLeast(x, keys);
    } else {
      var rest := keys - {x};
      assert |rest| == |keys| - 1;
      HasLeast(rest);
      var m :| IsLeast(m, rest);
      assert keys == rest + {x};
      LeastOfAdded(x, rest, m);
    }
  }

  /** m is in keys and below every other element of keys. */
  predicate IsLeast(m: string, keys: set<string>)
  {
    m in keys && forall k :: k in keys && k != m ==> Less(m, k)
  }

  /** Adding x to a set with least element m leaves x or m least. */
  lemma LeastOfAdded(x: string, rest: set<string>, m: string)
    requires IsLeast(m, rest) && x !in rest
    ensures IsLeast(x, rest + {x}) || IsLeast(m, rest + {x})
  {
    LessTotal(x, m);
    if Less(x, m) {
      forall k | k in rest + {x} && k != x ensures Less(x, k) {
        if k != m { LessTransitive(x, m, k); }
      }
      assert IsLeast(x, rest + {x});
    } else {
      forall k | k in rest + {x} && k != m ensures Less(m, k) {
        if k == x { assert Less(m, x); } else { assert k in rest; }
      }
      assert IsLeast(m, rest + {x});
    }
  }

  /** The least element of a non-empty set of strings. */
  function MinKey(keys: set<string>): (m: string)
    requires keys != {}
    ensures m in keys
    ensures forall k :: k in keys && k != m ==> Less(m, k)
  {
    HasLeast(keys);
    assert forall a, b :: a in keys && b in keys && Less(a, b) ==> !Less(b, a) by {
      forall a, b | a in keys && b in keys && Less(a, b) ensures !Less(b, a) {
        LessAsymmetric(a, b);
      }
    }
    var m :| m in keys && IsLeast(m, keys);
    m
  }

  /** The entries of m in strictly ascending key order. */
  ghost predicate ListsInOrder<V>(m: map<string, V>, r: seq<(string, V)>)
  {
    && |r| == |m|
    && (forall i :: 0 <= i < |r| ==> r[i].0 in m && m[r[i].0] == r[i].1)
    && (forall k :: k in m ==> exists i :: 0 <= i < |r| && r[i].0 == k)
    && (forall i, j :: 0 <= i < j < |r| ==> Less(r[i].0, r[j].0))
  }

  /** `sorted(m.items())`: the entries of m, each once, in strictly ascending key order. */
  function SortedByKey<V>(m: map<string, V>): (r: seq<(string, V)>)
    ensures ListsInOrder(m, r)
    decreases |m|
  {
    if |m| == 0 then []
    else
      var k := MinKey(m.Keys);
      var rest := m - {k};
      assert rest.Keys == m.Keys - {k};
      assert |rest| == |m| - 1;
      var tail := SortedByKey(rest);
      SmallestFirst(m, k, tail);
      [(k, m[k])] + tail
  }

  lemma SmallestFirst<V>(m: map<string, V>, k: string, tail: seq<(string, V)>)
    requires k in m && forall k' :: k' in m && k' != k ==> Less(k, k')
    requires ListsInOrder(m - {k}, tail)
    ensures ListsInOrder(m, [(k, m[k])] + tail)
  {
    var rest := m - {k};
    assert rest.Keys == m.Keys - {k};
    assert |rest| == |m| - 1;
    ConsEntries(m, k, tail);
    ConsCovers(m, k, tail);
    ConsAscending(m, k, tail);
  }

  lemma ConsEntries<V>(m: map<string, V>, k: string, tail: seq<(string, V)>)
    requires k in m
    requires forall i :: 0 <= i < |tail| ==> tail[i].0 in m - {k} && (m - {k})[tail[i].0] == tail[i].1
    ensures var r := [(k, m[k])] + tail;
            forall i :: 0 <= i < |r| ==> r[i].0 in m && m[r[i].0] == r[i].1
  {
    var r := [(k, m[k])] + tail;
    forall i | 0 <= i < |r| ensures r[i].0 in m && m[r[i].0] == r[i].1 {
      if i > 0 { assert r[i] == tail[i - 1]; }
    }
  }

  lemma ConsCovers<V>(m: map<string, V>, k: string, tail: seq<(string, V)>)
    requires k in m
    requires forall k' :: k' in m - {k} ==> exists i :: 0 <= i < |tail| && tail[i].0 == k'
    ensures var r := [(k, m[k])] + tail;
            forall k' :: k' in m ==> exists i :: 0 <= i < |r| && r[i].0 == k'
  {
    var r := [(k, m[k])] + tail;
    forall k' | k' in m ensures exists i :: 0 <= i < |r| && r[i].0 == k' {
      if k' == k {
        assert r[0].0 == k';
      } else {
        assert k' in m - {k};
        var i :| 0 <= i < |tail| && tail[i].0 == k';
        assert r[i + 1].0 == k';
      }
    }
  }

  lemma ConsAscending<V>(m: map<string, V>, k: string, tail: seq<(string, V)>)
    requires k in m
    requires forall k' :: k' in m && k' != k ==> Less(k, k')
    requires forall i :: 0 <= i < |tail| ==> tail[i].0 in m - {k}
    requires forall i, j :: 0 <= i < j < |tail| ==> Less(tail[i].0, tail[j].0)
    ensures var r := [(k, m[k])] + tail;
            forall i, j :: 0 <= i < j < |r| ==> Less(r[i].0, r[j].0)
  {
    var r := [(k, m[k])] + tail;
    forall i, j | 0 <= i < j < |r| ensures Less(r[i].0, r[j].0) {
      assert r[j] == tail[j - 1];
      if i > 0 {
        assert r[i] == tail[i - 1];
      } else {
        assert tail[j - 1].0 in m - {k};
      }
    }
  }
}
