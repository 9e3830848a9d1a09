/**
 * Fixed-width C character arrays (`char name[16]`), and the two library
 * routines the snapshot layer uses on them: `strncmp(a, b, n) == 0` and
 * `strncpy(dst, src, n)`. The C string held in an array is the run of
 * characters before the first NUL, or the whole array if it has none.
 */
module CString {

  /** Width of the parameter name arrays and of snapshot record names. */
  const NameWidth: nat := 16

  /** A `char[16]` array, NUL padding included. */
  type Name = s: seq<char> | |s| == 16 witness seq(16, _ => '\0')

  function Zeros(n: nat): (z: seq<char>)
    ensures |z| == n
    ensures forall k :: 0 <= k < n ==> z[k] == '\0'
  {
    seq(n, _ => '\0')
  }

  /** The C string read from the first `n` characters of `a`. */
  function CStr(a: seq<char>, n: nat): (s: seq<char>)
    requires n <= |a|
    ensures |s| <= n
    ensures s == a[..|s|]
    ensures '\0' !in s
    ensures |s| < n ==> a[|s|] == '\0'
  {
    if n == 0 || a[0] == '\0' then []
    else [a[0]] + CStr(a[1..], n - 1)
  }

  /** `strncmp(a, b, n) == 0`: equal up to and including the first NUL, or for `n` characters. */
  function StrnEq(a: seq<char>, b: seq<char>, n: nat): bool
    requires n <= |a| && n <= |b|
  {
    n == 0 || (a[0] == b[0] && (a[0] == '\0' || StrnEq(a[1..], b[1..], n - 1)))
  }

  /** `strncmp` with bound `n` succeeds exactly when the two C strings agree. */
  lemma {:induction false} StrnEqIffSameCStr(a: seq<char>, b: seq<char>, n: nat)
    requires n <= |a| && n <= |b|
    ensures StrnEq(a, b, n) <==> CStr(a, n) == CStr(b, n)
  {
    if n == 0 || a[0] == '\0' || b[0] == '\0' {
    } else {
      StrnEqIffSameCStr(a[1..], b[1..], n - 1);
      var ca := CStr(a[1..], n - 1);
      var cb := CStr(b[1..], n - 1);
      assert CStr(a, n) == [a[0]] + ca;
      assert CStr(b, n) == [b[0]] + cb;
      ConsEq(a[0], ca, b[0], cb);
    }
  }

  lemma ConsEq<T>(x: T, xs: seq<T>, y: T, ys: seq<T>)
    ensures [x] + xs == [y] + ys <==> x == y && xs == ys
  {
    if [x] + xs == [y] + ys {
      assert ([x] + xs)[0] == x && ([y] + ys)[0] == y;
      assert ([x] + xs)[1..] == xs && ([y] + ys)[1..] == ys;
    }
  }

  /** A NUL-free string padded with NULs reads back as itself. */
  lemma {:induction false} CStrOfPadded(s: seq<char>, n: nat)
    requires |s| <= n
    requires '\0' !in s
    ensures CStr(s + Zeros(n - |s|), n) == s
  {
    if |s| == 0 {
    } else {
      var a := s + Zeros(n - |s|);
      assert a[1..] == s[1..] + Zeros((n - 1) - |s[1..]|);
      CStrOfPadded(s[1..], n - 1);
    }
  }

  /** The array `strncpy(dst, src, n)` leaves in `dst`: the C string of `src`, then NULs. */
  function Strncpy(src: seq<char>, n: nat): (d: seq<char>)
    requires n <= |src|
    ensures |d| == n
    ensures CStr(d, n) == CStr(src, n)
    ensures forall k :: |CStr(src, n)| <= k < n ==> d[k] == '\0'
  {
    var s := CStr(src, n);
    CStrOfPadded(s, n);
    s + Zeros(n - |s|)
  }

  /** The array a C initializer `char name[16] = "lit"` produces. */
  function Literal(lit: string): (a: Name)
    requires |lit| < NameWidth
    requires '\0' !in lit
    ensures CStr(a, NameWidth) == lit
    ensures a[|lit|] == '\0'
  {
    CStrOfPadded(lit, NameWidth);
    lit + Zeros(NameWidth - |lit|)
  }
}
