/** internal/sliceutil: order-preserving filtering of a slice. */
module SliceUtil {

  /** The elements of `s` that satisfy `f`, in their original order. */
  function Filtered<E>(s: seq<E>, f: E -> bool): seq<E>
    decreases |s|
  {
    if |s| == 0 then []
    else Filtered(s[..|s| - 1], f) + (if f(s[|s| - 1]) then [s[|s| - 1]] else [])
  }

  /** sliceutil.Filter: a fresh slice with capacity len(s), to which every
      element that satisfies `f` is appended in turn.  The input is a value
      and is left as it was. */
  method Filter<E>(s: seq<E>, f: E -> bool) returns (result: seq<E>)
    ensures result == Filtered(s, f)
    ensures |result| <= |s|
    ensures forall x :: x in result <==> x in s && f(x)
  {
    result := [];
    var i := 0;
    while i < |s|
      invariant 0 <= i <= |s|
      invariant result == Filtered(s[..i], f)
    {
      assert s[..i + 1][..i] == s[..i];
      if f(s[i]) {
        result := result + [s[i]];
      }
      i := i + 1;
    }
    assert s[..i] == s;
    FilteredLength(s, f);
    FilteredMembers(s, f);
  }

  /** Filtering distributes over concatenation: this is what "in their
      original order" means. */
  lemma {:induction false} FilteredAppend<E>(a: seq<E>, b: seq<E>, f: E -> bool)
    ensures Filtered(a + b, f) == Filtered(a, f) + Filtered(b, f)
    decreases |b|
  {
    if |b| == 0 {
      assert a + b == a;
    } else {
      var b' := b[..|b| - 1];
      assert (a + b)[..|a + b| - 1] == a + b';
      FilteredAppend(a, b', f);
    }
  }

  lemma {:induction false} FilteredLength<E>(s: seq<E>, f: E -> bool)
    ensures |Filtered(s, f)| <= |s|
    decreases |s|
  {
    if |s| > 0 {
      FilteredLength(s[..|s| - 1], f);
    }
  }

  /** Exactly the elements that satisfy `f` are kept. */
  lemma {:induction false} FilteredMembers<E>(s: seq<E>, f: E -> bool)
    ensures forall x :: x in Filtered(s, f) <==> x in s && f(x)
    decreases |s|
  {
    if |s| > 0 {
      var init := s[..|s| - 1];
      FilteredMembers(init, f);
      assert s == init + [s[|s| - 1]];
      forall x
        ensures x in Filtered(s, f) <==> x in s && f(x)
      {
        assert x in s <==> x in init || x == s[|s| - 1];
      }
    }
  }

  /** An always-true predicate keeps the slice as it is. */
  lemma {:induction false} FilteredAllTrue<E>(s: seq<E>, f: E -> bool)
    requires forall x :: f(x)
    ensures Filtered(s, f) == s
    decreases |s|
  {
    if |s| > 0 {
      FilteredAllTrue(s[..|s| - 1], f);
      assert s == s[..|s| - 1] + [s[|s| - 1]];
    }
  }

  /** An always-false predicate, or an empty input, gives an empty slice. */
  lemma {:induction false} FilteredAllFalse<E>(s: seq<E>, f: E -> bool)
    requires forall x :: !f(x)
    ensures Filtered(s, f) == []
    decreases |s|
  {
    if |s| > 0 {
      FilteredAllFalse(s[..|s| - 1], f);
    }
  }

  predicate IsOdd(v: string) { v == "odd" }

  /** Filtering ["even", "odd", "even"] for "odd" gives ["odd"]. */
  lemma FilterOddExample()
    ensures Filtered(["even", "odd", "even"], IsOdd) == ["odd"]
  {
    var s := ["even", "odd", "even"];
    assert s[..2] == ["even", "odd"];
    assert s[..2][..1] == ["even"];
    assert Filtered(s[..2][..1], IsOdd) == [];
    assert Filtered(s[..2], IsOdd) == ["odd"];
  }
}
