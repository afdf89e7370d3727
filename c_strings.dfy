/** C character strings as the message builders use them: the characters
    before the terminating NUL, one Dafny char per byte of the C char array
    (so the length of a CString is its strlen), the library routine strncpy,
    and what a reader of a NUL-terminated buffer (such as the MQTT publish
    call) finds in it. */
module CStrings {

  datatype Option<+T> = None | Some(value: T)

  const NUL: char := '\0'

  predicate NulFree(s: string) {
    forall i :: 0 <= i < |s| ==> s[i] != NUL
  }

  /** The contents of a C string: everything before its terminator. */
  type CString = s: string | NulFree(s)

  function Nuls(n: nat): (r: string)
    ensures |r| == n
    ensures forall i :: 0 <= i < n ==> r[i] == NUL
  {
    seq(n, _ => NUL)
  }

  /** The n characters that strncpy(dst, src, n) stores at dst: the first n
      characters of src when src is that long, otherwise all of src followed
      by NUL padding up to n. */
  function StrNCopy(src: CString, n: nat): (r: string)
    ensures |r| == n
  {
    if n <= |src| then src[..n] else src + Nuls(n - |src|)
  }

  /** s with the |w| characters starting at index at replaced by w. */
  function Splice(s: string, at: nat, w: string): (r: string)
    requires at + |w| <= |s|
    ensures |r| == |s|
  {
    s[..at] + w + s[at + |w|..]
  }

  lemma SpliceAt(s: string, at: nat, w: string)
    requires at + |w| <= |s|
    ensures forall k :: 0 <= k < |s| ==>
      Splice(s, at, w)[k] == if at <= k < at + |w| then w[k - at] else s[k]
  {
  }

  /** What a reader of a NUL-terminated string finds in buf: the characters
      before the first NUL, or None when buf holds no NUL at all and the
      reader would run past its end. */
  function ReadCString(buf: string): (r: Option<CString>)
    ensures r.Some? ==> |r.value| < |buf| && buf[..|r.value|] == r.value && buf[|r.value|] == NUL
    ensures r.None? ==> NulFree(buf)
  {
    if |buf| == 0 then None
    else if buf[0] == NUL then Some("")
    else match ReadCString(buf[1..])
      case None => None
      case Some(t) => Some([buf[0]] + t)
  }

  /** strncpy as the C library defines it, for a source with no NUL before its
      end: copy the characters of src while fewer than n have been written,
      then pad with NUL until exactly n characters are written. Nothing outside
      dst[at..at + n) changes. */
  method StrNCpy(dst: array<char>, at: nat, src: CString, n: nat)
    requires at + n <= dst.Length
    modifies dst
    ensures dst[..] == Splice(old(dst[..]), at, StrNCopy(src, n))
  {
    ghost var w := StrNCopy(src, n);
    var i := 0;
    while i < n && i < |src|
      invariant i <= n && i <= |src|
      invariant forall k :: 0 <= k < dst.Length ==>
        dst[k] == if at <= k < at + i then w[k - at] else old(dst[k])
    {
      dst[at + i] := src[i];
      i := i + 1;
    }
    while i < n
      invariant i <= n
      invariant i < n ==> |src| <= i
      invariant forall k :: 0 <= k < dst.Length ==>
        dst[k] == if at <= k < at + i then w[k - at] else old(dst[k])
    {
      dst[at + i] := NUL;
      i := i + 1;
    }
    SpliceAt(old(dst[..]), at, w);
    assert dst[..] == Splice(old(dst[..]), at, w);
  }

  /** A copy that fits is followed by NUL padding; one that does not fit is
      truncated to exactly n characters. */
  lemma StrNCopyShape(src: CString, n: nat)
    ensures |src| <= n ==> StrNCopy(src, n)[..|src|] == src
    ensures |src| <= n ==> forall i :: |src| <= i < n ==> StrNCopy(src, n)[i] == NUL
    ensures n < |src| ==> StrNCopy(src, n) == src[..n] && NulFree(StrNCopy(src, n))
  {
  }

  /** Reading back a strncpy'd buffer gives the source exactly when the copy
      left room for at least one NUL; otherwise the buffer is unterminated. */
  lemma {:induction false} ReadStrNCopy(src: CString, n: nat)
    ensures ReadCString(StrNCopy(src, n)) == if |src| < n then Some(src) else None
  {
    if n == 0 {
      assert StrNCopy(src, n) == [];
    } else if |src| == 0 {
      assert StrNCopy(src, n)[0] == NUL;
    } else {
      StrNCopyTail(src, n);
      ReadStrNCopy(src[1..], n - 1);
      assert [src[0]] + src[1..] == src;
    }
  }

  /** Dropping the first character of a copy is copying the rest of the
      source into one character less. */
  lemma StrNCopyTail(src: CString, n: nat)
    requires 0 < n && 0 < |src|
    ensures StrNCopy(src, n)[0] == src[0]
    ensures StrNCopy(src, n)[1..] == StrNCopy(src[1..], n - 1)
  {
  }

  /** Writing a after-part b with n - |a| characters right behind a copied
      prefix a gives what one strncpy of a + b with n characters gives. */
  lemma StrNCopyAppend(a: CString, b: CString, n: nat)
    requires |a| <= n
    ensures NulFree(a + b)
    ensures a + StrNCopy(b, n - |a|) == StrNCopy(a + b, n)
  {
  }

  /** A strncpy at index at, right behind an already written prefix prev,
      with the remaining length n == len - at, extends that prefix by seg when
      seg fits, and leaves everything from len on alone. */
  lemma StrNCpyExtends(before: string, after: string, len: nat, at: nat, n: nat,
                       prev: string, seg: CString)
    requires at == |prev| && n == len - at && at + |seg| <= len <= |before|
    requires before[..at] == prev
    requires after == Splice(before, at, StrNCopy(seg, n))
    ensures after[..at + |seg|] == prev + seg
    ensures after[len..] == before[len..]
  {
  }

  /** The last strncpy of a chain, at index at == |prev| with n == len - at,
      completes line == prev + seg: the buffer's first len characters become
      one strncpy of line, whether or not seg fits, and nothing from len on
      changes. */
  lemma StrNCpyFinishes(before: string, after: string, len: nat, at: nat, n: nat,
                        prev: string, seg: CString, line: CString)
    requires at == |prev| && n == len - at && at <= len <= |before|
    requires before[..at] == prev && prev + seg == line
    requires after == Splice(before, at, StrNCopy(seg, n))
    ensures after[..len] == StrNCopy(line, len)
    ensures after[len..] == before[len..]
  {
  }

  /** The first len characters of buf hold a strncpy of line with n = len:
      the line followed by NUL padding when it fits, and a NUL-terminated
      string that reads back as line exactly when it is shorter than len. */
  lemma StrNCopyInBuffer(buf: string, len: nat, line: CString)
    requires len <= |buf| && buf[..len] == StrNCopy(line, len)
    ensures |line| <= len ==> buf[..|line|] == line && forall i :: |line| <= i < len ==> buf[i] == NUL
    ensures ReadCString(buf[..len]) == if |line| < len then Some(line) else None
  {
    StrNCopyShape(line, len);
    ReadStrNCopy(line, len);
    if |line| <= len {
      assert buf[..|line|] == buf[..len][..|line|];
      forall i | |line| <= i < len ensures buf[i] == NUL {
        assert buf[i] == buf[..len][i];
      }
    }
  }
}
