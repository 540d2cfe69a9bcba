/** Small building blocks shared by every model in this project. */
module Common {

  datatype Option<T> = None | Some(value: T)

  /** One byte of file content. */
  newtype byte = b: int | 0 <= b < 256

  type Bytes = seq<byte>

  /** No element occurs twice. */
  predicate NoDup<T(==)>(s: seq<T>)
  {
    forall i, j :: 0 <= i < j < |s| ==> s[i] != s[j]
  }

  /** The concatenation of a sequence of sequences, left to right. */
  function Concat<T>(parts: seq<seq<T>>): seq<T>
  {
    if parts == [] then [] else Concat(parts[..|parts| - 1]) + parts[|parts| - 1]
  }

  lemma {:induction false} ConcatAppend<T>(a: seq<seq<T>>, b: seq<seq<T>>)
    ensures Concat(a + b) == Concat(a) + Concat(b)
    decreases |b|
  {
    if b == [] {
      assert a + b == a;
    } else {
      var b' := b[..|b| - 1];
      assert Concat(a + b) == Concat(a + b') + b[|b| - 1] by {
        assert (a + b)[..|a + b| - 1] == a + b';
        assert (a + b)[|a + b| - 1] == b[|b| - 1];
      }
      ConcatAppend(a, b');
    }
  }

  /** Every element of a sequence is the empty sequence: they contribute nothing. */
  lemma {:induction false} ConcatOfEmpties<T>(parts: seq<seq<T>>)
    requires forall i :: 0 <= i < |parts| ==> parts[i] == []
    ensures Concat(parts) == []
  {
    if parts != [] {
      ConcatOfEmpties(parts[..|parts| - 1]);
    }
  }

  /** Integer ceiling of n / d, the `ceil(size / chunk_size)` of the source for exact arithmetic. */
  function CeilDiv(n: nat, d: nat): (q: nat)
    requires d > 0
    ensures (q - 1) * d < n <= q * d || (n == 0 && q == 0)
  {
    (n + d - 1) / d
  }

  /** The elements of `s` other than `x`, in order (Python's list comprehension filter). */
  function Without<T(==)>(s: seq<T>, x: T): (r: seq<T>)
    ensures x !in r
    ensures forall i :: 0 <= i < |r| ==> r[i] in s && r[i] != x
    ensures forall i :: 0 <= i < |s| && s[i] != x ==> s[i] in r
    ensures |r| <= |s|
  {
    if s == [] then []
    else Without(s[..|s| - 1], x) + (if s[|s| - 1] == x then [] else [s[|s| - 1]])
  }

  lemma {:induction false} WithoutAppend<T>(a: seq<T>, b: seq<T>, x: T)
    ensures Without(a + b, x) == Without(a, x) + Without(b, x)
    decreases |b|
  {
    if b != [] {
      var b' := b[..|b| - 1];
      assert (a + b)[..|a + b| - 1] == a + b';
      WithoutAppend(a, b', x);
    } else {
      assert a + b == a;
    }
  }

  lemma {:induction false} WithoutAbsent<T>(s: seq<T>, x: T)
    requires x !in s
    ensures Without(s, x) == s
  {
    if s != [] {
      var init := s[..|s| - 1];
      assert x !in init by {
        assert s == init + [s[|s| - 1]];
      }
      WithoutAbsent(init, x);
      assert s == init + [s[|s| - 1]];
    }
  }

  lemma {:induction false} WithoutKeepsNoDup<T>(s: seq<T>, x: T)
    ensures NoDup(s) ==> NoDup(Without(s, x))
  {
    if s != [] {
      WithoutKeepsNoDup(s[..|s| - 1], x);
    }
  }

  /** In a duplicate-free sequence, what comes before position `i` does not come again after it. */
  lemma NoDupSplit<T>(s: seq<T>, i: nat)
    requires NoDup(s) && i <= |s|
    ensures forall x :: x in s[..i] ==> x !in s[i..]
  {
    forall x | x in s[..i] ensures x !in s[i..] {
      var a :| 0 <= a < i && s[a] == x;
      forall b | 0 <= b < |s| - i ensures s[i..][b] != x {
        assert s[i..][b] == s[i + b];
      }
    }
  }

  /** Position `i` of a duplicate-free sequence splits it into what comes before, `s[i]` and the rest, neither holding `s[i]`. */
  lemma NoDupAt<T>(s: seq<T>, i: nat)
    requires NoDup(s) && i < |s|
    ensures s[i..] == [s[i]] + s[i + 1..]
    ensures s[i] !in s[..i] && s[i] !in s[i + 1..]
  {
    assert s[i..] == [s[i]] + s[i + 1..];
    NoDupSplit(s, i);
    NoDupSplit(s, i + 1);
    assert s[..i + 1][i] == s[i];
  }

  /** A prefix of a duplicate-free sequence is duplicate-free. */
  lemma NoDupPrefix<T>(s: seq<T>, i: nat)
    requires NoDup(s) && i <= |s|
    ensures NoDup(s[..i])
  {
    forall a, b | 0 <= a < b < i ensures s[..i][a] != s[..i][b] {
      assert s[..i][a] == s[a] && s[..i][b] == s[b];
    }
  }

  lemma NoDupConcat<T>(a: seq<T>, b: seq<T>)
    requires NoDup(a) && NoDup(b)
    requires forall x :: x in a ==> x !in b
    ensures NoDup(a + b)
  {
    forall i, j | 0 <= i < j < |a + b| ensures (a + b)[i] != (a + b)[j] {
      if i < |a| && j >= |a| {
        assert (a + b)[i] in a;
        assert (a + b)[j] == b[j - |a|];
      }
    }
  }
}
