/** Shared vocabulary: bytes, results, fixed-width integer bounds and little
    sequence helpers used by every other module. */
module Common {

  /** An unsigned 8-bit value, as stored in a memory image. */
  newtype byte = x: int | 0 <= x < 256

  datatype Option<T> = None | Some(value: T)

  /** The outcome of an operation that can fail with an error of type E. */
  datatype Result<T, E> = Ok(value: T) | Err(error: E) {
    predicate IsFailure() { Err? }

    function PropagateFailure<U>(): Result<U, E>
      requires Err?
    {
      Err(error)
    }

    function Extract(): T
      requires Ok?
    {
      value
    }
  }

  const U32_LIMIT: int := 0x1_0000_0000
  const U64_LIMIT: int := 0x1_0000_0000_0000_0000

  predicate IsU32(n: int) { 0 <= n < U32_LIMIT }

  /** 2 to the power n. */
  function Pow2(n: nat): (r: nat)
    ensures r >= 1
  {
    if n == 0 then 1 else 2 * Pow2(n - 1)
  }

  /** n copies of the byte b, as `Vec::resize` appends them. */
  function Fill(n: nat, b: byte): (r: seq<byte>)
    ensures |r| == n
    ensures forall i :: 0 <= i < n ==> r[i] == b
  {
    seq(n, _ => b)
  }

  /** The sequence s grown with copies of b, or cut, to exactly n elements:
      the effect of Rust's `Vec::resize(n, b)`. */
  function Resize(s: seq<byte>, n: nat, b: byte): (r: seq<byte>)
    ensures |r| == n
    ensures forall i :: 0 <= i < n && i < |s| ==> r[i] == s[i]
    ensures forall i :: |s| <= i < n ==> r[i] == b
  {
    if n <= |s| then s[..n] else s + Fill(n - |s|, b)
  }

  /** The elements of s in reverse order. */
  function Reverse<T>(s: seq<T>): (r: seq<T>)
    ensures |r| == |s|
    ensures forall i :: 0 <= i < |s| ==> r[i] == s[|s| - 1 - i]
  {
    if s == [] then [] else Reverse(s[1..]) + [s[0]]
  }

  /** Reversing twice gives back the sequence. */
  lemma ReverseReverse<T>(s: seq<T>)
    ensures Reverse(Reverse(s)) == s
  {
    var r := Reverse(Reverse(s));
    assert forall i | 0 <= i < |s| :: r[i] == s[i];
  }

  /** Number of occurrences of c in s. */
  function Count<T(==)>(s: seq<T>, c: T): nat
  {
    if s == [] then 0 else (if s[0] == c then 1 else 0) + Count(s[1..], c)
  }

  lemma {:induction false} CountAppend<T>(a: seq<T>, b: seq<T>, c: T)
    ensures Count(a + b, c) == Count(a, c) + Count(b, c)
  {
    if a == [] {
      assert a + b == b;
    } else {
      assert (a + b)[1..] == a[1..] + b;
      CountAppend(a[1..], b, c);
    }
  }

  lemma {:induction false} CountZero<T>(s: seq<T>, c: T)
    ensures Count(s, c) == 0 <==> c !in s
  {
    if s != [] {
      CountZero(s[1..], c);
      assert s == [s[0]] + s[1..];
    }
  }

  /** Concatenation of a sequence of sequences, in order. */
  function Flatten<T>(ss: seq<seq<T>>): seq<T>
  {
    if ss == [] then [] else Flatten(ss[..|ss| - 1]) + ss[|ss| - 1]
  }

  /** Flattening a sequence that starts with s gives s, then the rest. */
  lemma {:induction false} FlattenCons<T>(s: seq<T>, rest: seq<seq<T>>)
    ensures Flatten([s] + rest) == s + Flatten(rest)
    decreases |rest|
  {
    var all := [s] + rest;
    if rest == [] {
      assert all[..0] == [];
    } else {
      assert all[..|all| - 1] == [s] + rest[..|rest| - 1];
      FlattenCons(s, rest[..|rest| - 1]);
    }
  }

  /** Rows that all have `cols` elements flatten to `|rows| * cols`
      elements. */
  lemma {:induction false} FlattenUniformLength<T>(rows: seq<seq<T>>, cols: nat)
    requires forall k :: 0 <= k < |rows| ==> |rows[k]| == cols
    ensures |Flatten(rows)| == |rows| * cols
  {
    if rows != [] {
      FlattenUniformLength(rows[..|rows| - 1], cols);
      assert |rows| * cols == (|rows| - 1) * cols + cols;
    }
  }

  /** Multiplication by a natural number keeps order. */
  lemma MulMonotone(a: nat, b: nat, c: nat)
    requires a <= b
    ensures a * c <= b * c
  {
    var d := b - a;
    assert b * c == a * c + d * c;
  }

  /** The place of row i, column j in rows of `cols` elements laid out one
      after the other. */
  function RowMajorIndex(i: nat, cols: nat, j: nat): nat
  {
    i * cols + j
  }

  /** In the flattening of rows of equal width, the element in row i and
      column j sits at `i * cols + j`: row-major order. */
  lemma {:induction false} FlattenUniformAt<T>(rows: seq<seq<T>>, cols: nat, i: nat, j: nat)
    requires forall k :: 0 <= k < |rows| ==> |rows[k]| == cols
    requires i < |rows| && j < cols
    ensures RowMajorIndex(i, cols, j) < |Flatten(rows)|
    ensures Flatten(rows)[RowMajorIndex(i, cols, j)] == rows[i][j]
  {
    var init := rows[..|rows| - 1];
    var flat := Flatten(init);
    assert Flatten(rows) == flat + rows[|rows| - 1];
    FlattenUniformLength(rows, cols);
    FlattenUniformLength(init, cols);
    var x := i * cols + j;
    if i < |rows| - 1 {
      assert (i + 1) * cols == i * cols + cols;
      MulMonotone(i + 1, |rows| - 1, cols);
      FlattenUniformAt(init, cols, i, j);
      assert x < |flat|;
      assert Flatten(rows)[x] == flat[x];
    } else {
      assert x == |flat| + j;
      assert Flatten(rows)[x] == rows[i][j];
    }
  }

  /** The UTF-8 encoding of one Unicode scalar value. */
  function Utf8Char(c: char): (r: seq<byte>)
    ensures 1 <= |r| <= 4
    ensures (c as int < 0x80) <==> |r| == 1
  {
    var n := c as int;
    if n < 0x80 then [n as byte]
    else if n < 0x800 then [(0xC0 + n / 64) as byte, (0x80 + n % 64) as byte]
    else if n < 0x1_0000 then
      [(0xE0 + n / 4096) as byte, (0x80 + (n / 64) % 64) as byte, (0x80 + n % 64) as byte]
    else
      [(0xF0 + n / 262144) as byte, (0x80 + (n / 4096) % 64) as byte,
       (0x80 + (n / 64) % 64) as byte, (0x80 + n % 64) as byte]
  }

  /** The UTF-8 bytes of a string: Rust's `str::as_bytes`. */
  function Utf8(s: string): (r: seq<byte>)
    ensures |r| >= |s|
  {
    if s == [] then [] else Utf8Char(s[0]) + Utf8(s[1..])
  }

  predicate IsAscii(s: string) { forall i :: 0 <= i < |s| ==> s[i] as int < 0x80 }

  /** An ASCII string is its own UTF-8 encoding, one byte per character. */
  lemma {:induction false} Utf8OfAscii(s: string)
    requires IsAscii(s)
    ensures |Utf8(s)| == |s|
    ensures forall i :: 0 <= i < |s| ==> Utf8(s)[i] as int == s[i] as int
  {
    if s != [] {
      assert IsAscii(s[1..]) by {
        forall i | 0 <= i < |s| - 1 ensures s[1..][i] as int < 0x80 {
          assert s[1..][i] == s[i + 1];
        }
      }
      Utf8OfAscii(s[1..]);
    }
  }
}
