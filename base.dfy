/**
 * Shared vocabulary of the EPG decoder model: bytes, the failures the
 * decoder can raise, a failure-compatible Result, and the two byte-string
 * helpers the Python code relies on implicitly (clamped slicing and
 * "stop at the first zero byte").
 */
module Base {

  /** One byte of the epg.dat dump, as Python's struct 'B' yields it. */
  type byte = x: int | 0 <= x < 256

  /** Every way the decoder can stop early.  Each names the Python exception
      or exit status it stands for. */
  datatype Error =
    | UnexpectedEof     // struct.error: a fixed-width read came back short
    | BadMagic          // sys.exit(3): magic is neither byte order's marker
    | BadHeader         // sys.exit(4): header is not "ENIGMA_EPG_V7"
    | InvalidDate       // ValueError from datetime.datetime(...)
    | InvalidArgument   // ValueError from bcd_to_int on a negative input
    | IndexOutOfRange   // IndexError: descriptor data too short to index
    | NoAppend          // AttributeError: ADD fragment without a Description

  datatype Result<+T> = Ok(value: T) | Err(error: Error) {
    predicate IsFailure() { Err? }

    function PropagateFailure<U>(): Result<U>
      requires Err?
    {
      Err(error)
    }

    function Extract(): T
      requires Ok?
    {
      value
    }
  }

  /** A step that either completes or raises; used with `:-` in methods. */
  datatype Outcome = Pass | Fail(error: Error) {
    predicate IsFailure() { Fail? }

    function PropagateFailure(): Outcome
      requires Fail?
    {
      this
    }
  }

  datatype Option<+T> = None | Some(value: T)

  function Min(a: int, b: int): int { if a <= b then a else b }

  function Max(a: int, b: int): int { if a <= b then b else a }

  /** Python's s[i:j] for non-negative bounds: both ends are clamped to |s|. */
  function Slice(s: seq<byte>, i: nat, j: nat): (r: seq<byte>)
    ensures |r| == Max(0, Min(j, |s|) - Min(i, |s|))
    ensures i <= j <= |s| ==> r == s[i..j]
    ensures forall k :: 0 <= k < |r| ==> r[k] == s[i + k]
  {
    var lo := Min(i, |s|);
    var hi := Min(j, |s|);
    if lo <= hi then s[lo..hi] else []
  }

  /** Python's s[i:] for a non-negative start. */
  function From(s: seq<byte>, i: nat): (r: seq<byte>)
    ensures i <= |s| ==> r == s[i..]
    ensures i >= |s| ==> r == []
  {
    if i <= |s| then s[i..] else []
  }

  /** The bytes before the first zero byte (all of s when it has none):
      what the character-appending loops of the Description class keep. */
  function TakeUntilZero(s: seq<byte>): seq<byte>
  {
    if s == [] || s[0] == 0 then [] else [s[0]] + TakeUntilZero(s[1..])
  }

  /** TakeUntilZero keeps a zero-free prefix and stops exactly at the end of
      the input or at its first zero byte. */
  lemma {:induction false} TakeUntilZeroShape(s: seq<byte>)
    ensures |TakeUntilZero(s)| <= |s|
    ensures TakeUntilZero(s) == s[..|TakeUntilZero(s)|]
    ensures forall k :: 0 <= k < |TakeUntilZero(s)| ==> TakeUntilZero(s)[k] != 0
    ensures |TakeUntilZero(s)| == |s| || s[|TakeUntilZero(s)|] == 0
  {
    if s != [] && s[0] != 0 {
      TakeUntilZeroShape(s[1..]);
    }
  }

  /** Stopping at the first zero: a zero-free prefix followed by a zero (or
      nothing) is exactly what TakeUntilZero returns. */
  lemma {:induction false} TakeUntilZeroUnique(s: seq<byte>, n: nat)
    requires n <= |s|
    requires forall k :: 0 <= k < n ==> s[k] != 0
    requires n == |s| || s[n] == 0
    ensures TakeUntilZero(s) == s[..n]
  {
    if n > 0 {
      TakeUntilZeroUnique(s[1..], n - 1);
      assert s[..n] == [s[0]] + s[1..][..n - 1];
    }
  }
}
