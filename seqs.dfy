/**
 * Sequence operations that the Python code performs on `bytes` and `str`
 * values: prefix and suffix tests, the `in` substring test, slicing with
 * Python's clamping rules, `split(sep)` and `sep.join(...)`.
 */
module Seqs {

  /** `s.startswith(p)` */
  predicate StartsWith<T(==)>(s: seq<T>, p: seq<T>) {
    |p| <= |s| && s[..|p|] == p
  }

  /** `s.endswith(p)` */
  predicate EndsWith<T(==)>(s: seq<T>, p: seq<T>) {
    |p| <= |s| && s[|s| - |p|..] == p
  }

  /** `p in s` for two strings or two byte strings: `p` occurs somewhere in `s`. */
  predicate IsInfix<T(==)>(s: seq<T>, p: seq<T>)
    decreases |s|
  {
    StartsWith(s, p) || (|s| > 0 && IsInfix(s[1..], p))
  }

  /** `p` occurs in `s` starting at index `i`. */
  predicate OccursAt<T(==)>(s: seq<T>, p: seq<T>, i: int) {
    0 <= i <= |s| - |p| && s[i..i + |p|] == p
  }

  lemma {:induction false} IsInfixAt<T>(s: seq<T>, p: seq<T>)
    ensures IsInfix(s, p) <==> exists i :: OccursAt(s, p, i)
    decreases |s|
  {
    if StartsWith(s, p) {
      assert OccursAt(s, p, 0);
    }
    if |s| > 0 {
      IsInfixAt(s[1..], p);
      if IsInfix(s[1..], p) {
        var i :| OccursAt(s[1..], p, i);
        assert s[i + 1..i + 1 + |p|] == s[1..][i..i + |p|];
        assert OccursAt(s, p, i + 1);
      }
      if exists i :: OccursAt(s, p, i) {
        var i :| OccursAt(s, p, i);
        if i > 0 {
          assert s[1..][i - 1..i - 1 + |p|] == s[i..i + |p|];
          assert OccursAt(s[1..], p, i - 1);
        } else {
          assert StartsWith(s, p);
        }
      }
    } else {
      if exists i :: OccursAt(s, p, i) {
        var i :| OccursAt(s, p, i);
        assert StartsWith(s, p);
      }
    }
  }

  /** A sequence whose first element does not occur in `s` is not an infix of `s`. */
  lemma {:induction false} NotInfixWithoutHead<T>(s: seq<T>, p: seq<T>)
    requires p != [] && p[0] !in s
    ensures !IsInfix(s, p)
    decreases |s|
  {
    if |s| > 0 {
      assert s[1..] <= s[1..] && forall x :: x in s[1..] ==> x in s;
      NotInfixWithoutHead(s[1..], p);
    }
  }

  /** `s[n:]` for a non-negative `n`: Python clamps an index past the end to the end. */
  function Drop<T>(s: seq<T>, n: nat): (r: seq<T>)
    ensures |r| == if n <= |s| then |s| - n else 0
    ensures n <= |s| ==> s == s[..n] + r
  {
    if n <= |s| then s[n..] else []
  }

  /** Python's normalisation of a slice bound: negative counts from the end, then clamp into range. */
  function SliceBound(len: nat, x: int): (r: nat)
    ensures r <= len
  {
    if x < 0 then (if len + x < 0 then 0 else len + x) else if x > len then len else x
  }

  /** `s[start:stop]` with Python's rules for negative and out-of-range bounds. */
  function Slice<T>(s: seq<T>, start: int, stop: int): seq<T> {
    var a := SliceBound(|s|, start);
    var b := SliceBound(|s|, stop);
    if a < b then s[a..b] else []
  }

  /** Regrouping three concatenated pieces, the last with an empty tail. */
  lemma Regroup3<T>(a: seq<T>, b: seq<T>, c: seq<T>)
    ensures a + (b + (c + [])) == a + b + c
  {
  }

  /** Regrouping four concatenated pieces. */
  lemma Regroup4<T>(a: seq<T>, b: seq<T>, c: seq<T>, d: seq<T>)
    ensures a + b + c + d == a + (b + c + d)
  {
  }

  /** Concatenation of a sequence of sequences. */
  function Flatten<T>(ss: seq<seq<T>>): seq<T> {
    if ss == [] then [] else ss[0] + Flatten(ss[1..])
  }

  lemma {:induction false} FlattenAppend<T>(xs: seq<seq<T>>, ys: seq<seq<T>>)
    ensures Flatten(xs + ys) == Flatten(xs) + Flatten(ys)
  {
    if xs != [] {
      assert (xs + ys)[0] == xs[0];
      assert (xs + ys)[1..] == xs[1..] + ys;
      FlattenAppend(xs[1..], ys);
      calc {
        Flatten(xs + ys);
        xs[0] + Flatten(xs[1..] + ys);
        xs[0] + (Flatten(xs[1..]) + Flatten(ys));
      }
    } else {
      assert xs + ys == ys;
    }
  }

  /** `s.split(sep)` with an explicit one-element separator: always at least one field. */
  function Split<T(==)>(s: seq<T>, sep: T): (r: seq<seq<T>>)
    ensures |r| >= 1
  {
    if |s| == 0 then [[]]
    else
      var rest := Split(s[1..], sep);
      if s[0] == sep then [[]] + rest else [[s[0]] + rest[0]] + rest[1..]
  }

  /** `sep.join(fields)` */
  function Join<T>(fields: seq<seq<T>>, sep: T): seq<T>
    requires |fields| >= 1
  {
    if |fields| == 1 then fields[0] else fields[0] + [sep] + Join(fields[1..], sep)
  }

  /** Joining two non-empty lists of fields: the two joins with one separator between. */
  lemma {:induction false} JoinAppend<T>(xs: seq<seq<T>>, ys: seq<seq<T>>, sep: T)
    requires |xs| >= 1 && |ys| >= 1
    ensures Join(xs + ys, sep) == Join(xs, sep) + [sep] + Join(ys, sep)
  {
    if |xs| > 1 {
      assert (xs + ys)[1..] == xs[1..] + ys;
      JoinAppend(xs[1..], ys, sep);
    } else {
      assert (xs + ys)[1..] == ys;
    }
  }

  /** Joining a field in front of non-empty fields. */
  lemma JoinCons<T>(m: seq<T>, ys: seq<seq<T>>, sep: T)
    requires |ys| >= 1
    ensures Join([m] + ys, sep) == m + [sep] + Join(ys, sep)
  {
    assert ([m] + ys)[1..] == ys;
  }

  /** A leading field holding the separator joins like the two fields it is made of. */
  lemma JoinCutHead<T>(a: seq<T>, b: seq<T>, ys: seq<seq<T>>, sep: T)
    requires |ys| >= 1
    ensures Join([a + [sep] + b] + ys, sep) == Join([a, b] + ys, sep)
  {
    JoinCons(a + [sep] + b, ys, sep);
    JoinCons(b, ys, sep);
    JoinCons(a, [b] + ys, sep);
    assert [a, b] + ys == [a] + ([b] + ys);
    Regroup(a, b, Join(ys, sep), sep);
  }

  lemma Regroup<T>(a: seq<T>, b: seq<T>, c: seq<T>, sep: T)
    ensures a + [sep] + b + [sep] + c == a + [sep] + (b + [sep] + c)
  {
  }

  /** A field holding the separator joins to the same sequence as the two fields it is made of. */
  lemma JoinCutField<T>(xs: seq<seq<T>>, a: seq<T>, b: seq<T>, ys: seq<seq<T>>, sep: T)
    requires |xs| >= 1 && |ys| >= 1
    ensures Join(xs + [a + [sep] + b] + ys, sep) == Join(xs + [a, b] + ys, sep)
  {
    assert xs + [a + [sep] + b] + ys == xs + ([a + [sep] + b] + ys);
    assert xs + [a, b] + ys == xs + ([a, b] + ys);
    JoinAppend(xs, [a + [sep] + b] + ys, sep);
    JoinAppend(xs, [a, b] + ys, sep);
    JoinCutHead(a, b, ys, sep);
  }

  /** No field that `Split` returns contains the separator. */
  lemma {:induction false} SplitFieldsFree<T>(s: seq<T>, sep: T)
    ensures forall k :: 0 <= k < |Split(s, sep)| ==> sep !in Split(s, sep)[k]
  {
    if |s| > 0 {
      SplitFieldsFree(s[1..], sep);
    }
  }

  /** Joining the fields of a split with the same separator gives back the input. */
  lemma {:induction false} JoinSplit<T>(s: seq<T>, sep: T)
    ensures Join(Split(s, sep), sep) == s
  {
    if |s| > 0 {
      var rest := Split(s[1..], sep);
      JoinSplit(s[1..], sep);
      if s[0] == sep {
        assert ([[]] + rest)[1..] == rest;
      } else if |rest| == 1 {
      } else {
        var r := [[s[0]] + rest[0]] + rest[1..];
        assert r[1..] == rest[1..];
        assert Join(rest, sep) == rest[0] + [sep] + Join(rest[1..], sep);
      }
    }
  }

  /** A field free of the separator followed by the separator is split off as the first field. */
  lemma {:induction false} SplitFirstField<T>(a: seq<T>, b: seq<T>, sep: T)
    requires sep !in a
    ensures Split(a + [sep] + b, sep) == [a] + Split(b, sep)
  {
    if a == [] {
      assert ([sep] + b)[1..] == b;
    } else {
      assert (a + [sep] + b)[1..] == a[1..] + [sep] + b;
      SplitFirstField(a[1..], b, sep);
      assert [a[0]] + a[1..] == a;
    }
  }

  /** A sequence free of the separator is a single field. */
  lemma {:induction false} SplitNoSeparator<T>(a: seq<T>, sep: T)
    requires sep !in a
    ensures Split(a, sep) == [a]
  {
    if a != [] {
      SplitNoSeparator(a[1..], sep);
      assert [a[0]] + a[1..] == a;
    }
  }

  /** Splitting a join of separator-free fields gives the fields back. */
  lemma {:induction false} SplitJoin<T>(fields: seq<seq<T>>, sep: T)
    requires |fields| >= 1
    requires forall k :: 0 <= k < |fields| ==> sep !in fields[k]
    ensures Split(Join(fields, sep), sep) == fields
  {
    if |fields| == 1 {
      SplitNoSeparator(fields[0], sep);
    } else {
      SplitJoin(fields[1..], sep);
      SplitFirstField(fields[0], Join(fields[1..], sep), sep);
      assert [fields[0]] + fields[1..] == fields;
    }
  }

  /** `s.split(sep)[-1]`: the text after the last separator, or all of `s` when there is none. */
  function LastField<T(==)>(s: seq<T>, sep: T): seq<T> {
    var fields := Split(s, sep);
    fields[|fields| - 1]
  }

  /** A split into one field returns the input itself; a split into several means the separator occurs. */
  lemma SplitCount<T>(s: seq<T>, sep: T)
    ensures |Split(s, sep)| == 1 ==> Split(s, sep)[0] == s
    ensures |Split(s, sep)| > 1 ==> sep in s
  {
    JoinSplit(s, sep);
    var fields := Split(s, sep);
    if |fields| > 1 {
      assert s == fields[0] + [sep] + Join(fields[1..], sep);
      assert s[|fields[0]|] == sep;
    }
  }

  /** The last field of a non-empty sequence, by its first element. */
  lemma LastFieldCons<T>(s: seq<T>, sep: T)
    requires |s| > 0
    ensures LastField(s, sep) == if s[0] == sep || |Split(s[1..], sep)| > 1 then LastField(s[1..], sep) else s
  {
    SplitCount(s[1..], sep);
    assert s == [s[0]] + s[1..];
  }

  /** The last field has no separator, and `s` is some prefix followed by it; the prefix is empty or ends with the separator. */
  lemma {:induction false} LastFieldIsSuffix<T>(s: seq<T>, sep: T)
    ensures sep !in LastField(s, sep)
    ensures EndsWith(s, LastField(s, sep))
    ensures var n := |s| - |LastField(s, sep)|; n == 0 || s[n - 1] == sep
  {
    if |s| > 0 {
      var t := s[1..];
      var last := LastField(s, sep);
      LastFieldIsSuffix(t, sep);
      LastFieldCons(s, sep);
      if s[0] == sep || |Split(t, sep)| > 1 {
        SplitCount(t, sep);
        var n' := |t| - |last|;
        assert s[n' + 1..] == t[n'..];
      } else {
        SplitFieldsFree(s, sep);
      }
    } else {
      SplitFieldsFree(s, sep);
    }
  }
}
