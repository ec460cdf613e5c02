/** NUL-terminated strings in a flat memory. */
module CStrings {
  const NUL: char := '\0'

  /** The memory holds the C string `s` at position `p`. */
  ghost predicate CString(mem: string, p: nat, s: string)
  {
    p + |s| < |mem| && mem[p + |s|] == NUL && forall i :: 0 <= i < |s| ==> mem[p + i] == s[i] != NUL
  }

  lemma CStringIndex(mem: string, p: nat, s: string, i: nat)
    requires CString(mem, p, s) && i <= |s|
    ensures mem[p + i] == if i < |s| then s[i] else NUL
    ensures i < |s| ==> mem[p + i] != NUL
  {}

  lemma CStringSuffix(mem: string, p: nat, s: string, i: nat)
    requires CString(mem, p, s) && i <= |s|
    ensures CString(mem, p + i, s[i..])
  {}

  lemma CStringFrame(mem: string, mem': string, p: nat, s: string)
    requires CString(mem, p, s) && |mem'| == |mem|
    requires forall i :: p <= i <= p + |s| ==> mem'[i] == mem[i]
    ensures CString(mem', p, s)
  {}

  /** strlen. */
  method Strlen(buf: array<char>, p: nat, ghost s: string) returns (n: nat)
    requires CString(buf[..], p, s)
    ensures n == |s|
  {
    n := 0;
    CStringIndex(buf[..], p, s, 0);
    while buf[p + n] != NUL
      invariant n <= |s|
      invariant buf[p + n] == if n < |s| then s[n] else NUL
      decreases |s| - n
    {
      n := n + 1;
      CStringIndex(buf[..], p, s, n);
    }
  }

  /** A NUL written inside a string leaves its head and its tail as strings. */
  method Cut(buf: array<char>, start: nat, n: nat, ghost t: string)
    requires CString(buf[..], start, t) && n < |t|
    modifies buf
    ensures CString(buf[..], start, t[..n]) && CString(buf[..], start + n + 1, t[n + 1..])
    ensures forall i :: 0 <= i < buf.Length && i != start + n ==> buf[i] == old(buf[i])
  {
    buf[start + n] := NUL;
  }

  /** A NUL-terminated string as a value. */
  method ReadString(buf: array<char>, p: nat, ghost w: string) returns (s: string)
    requires CString(buf[..], p, w)
    ensures s == w
  {
    var n := Strlen(buf, p, w);
    s := buf[p..p + n];
    assert forall i :: 0 <= i < n ==> s[i] == buf[..][p + i];
  }
}
