/** jni/su/utils.c: looking a property up in the text of a property file, cutting the copy of the text up
    in place. */
module Properties {
  import opened Wrappers
  import opened CStrings

  const VALUE_MAX := 92

  // ------------------------------------------------------------------ specification

  predicate IsSpace(c: char) { c in {' ', '\t', '\n', '\r'} || c as int == 11 || c as int == 12 }

  function TrimLeft(s: string): (r: string)
    ensures |r| <= |s|
  {
    if s == "" || !IsSpace(s[0]) then s else TrimLeft(s[1..])
  }

  lemma {:induction false} TrimLeftIsSuffix(s: string)
    ensures s[|s| - |TrimLeft(s)|..] == TrimLeft(s)
    ensures TrimLeft(s) == "" || !IsSpace(TrimLeft(s)[0])
  {
    if s != "" && IsSpace(s[0]) { TrimLeftIsSuffix(s[1..]); }
  }

  function TrimRight(s: string): string {
    if s == "" || !IsSpace(s[|s| - 1]) then s else TrimRight(s[..|s| - 1])
  }

  lemma {:induction false} TrimRightIsPrefix(s: string)
    ensures TrimRight(s) <= s
  {
    if s != "" && IsSpace(s[|s| - 1]) { TrimRightIsPrefix(s[..|s| - 1]); }
  }

  function Trim(s: string): string { TrimRight(TrimLeft(s)) }

  function IndexOf(s: string, c: char): (i: nat)
    ensures i <= |s|
  {
    if s == "" || s[0] == c then 0 else 1 + IndexOf(s[1..], c)
  }

  lemma {:induction false} IndexOfMeans(s: string, c: char)
    ensures IndexOf(s, c) < |s| ==> s[IndexOf(s, c)] == c
    ensures forall j :: 0 <= j < IndexOf(s, c) ==> s[j] != c
  {
    if s != "" && s[0] != c {
      IndexOfMeans(s[1..], c);
      assert forall j :: 0 < j < IndexOf(s, c) ==> s[j] == s[1..][j - 1];
    }
  }

  /** The newline-terminated lines of a text. */
  function Lines(s: string): seq<string>
    decreases |s|
  {
    var i := IndexOf(s, '\n');
    if i == |s| then [] else [s[..i]] + Lines(s[i + 1..])
  }

  function KeyOf(line: string): string { Trim(line[..IndexOf(line, '=')]) }

  function ValueOf(line: string): string
    requires IndexOf(line, '=') < |line|
  {
    Trim(line[IndexOf(line, '=') + 1..])
  }

  /** A line that has a `=`, is no comment, and whose key starts with the search key. */
  predicate Matches(line: string, key: string) {
    IndexOf(line, '=') < |line| && (KeyOf(line) == "" || KeyOf(line)[0] != '#') && key <= KeyOf(line)
  }

  /** The first line that matches. */
  function FirstMatch(lines: seq<string>, key: string): Option<string> {
    if lines == [] then None
    else if Matches(lines[0], key) then Some(ValueOf(lines[0]))
    else FirstMatch(lines[1..], key)
  }

  lemma {:induction false} FirstMatchMeans(lines: seq<string>, key: string) returns (k: nat)
    ensures k <= |lines| && (forall i :: 0 <= i < k ==> !Matches(lines[i], key))
    ensures k < |lines| ==> Matches(lines[k], key)
    ensures FirstMatch(lines, key) == if k < |lines| then Some(ValueOf(lines[k])) else None
  {
    if lines == [] || Matches(lines[0], key) {
      k := 0;
    } else {
      k := FirstMatchMeans(lines[1..], key);
      k := k + 1;
    }
  }

  // ------------------------------------------------------------------ any text

  predicate AllSpace(s: string) { forall c :: c in s ==> IsSpace(c) }

  predicate Trimmed(s: string) { s == "" || (!IsSpace(s[0]) && !IsSpace(s[|s| - 1])) }

  lemma {:induction false} TrimLeftOf(a: string, s: string)
    requires AllSpace(a) && (s == "" || !IsSpace(s[0]))
    ensures TrimLeft(a + s) == s
  {
    if a == "" {
      assert a + s == s;
    } else {
      assert a[0] in a && forall c :: c in a[1..] ==> c in a;
      TailOfSum(a, s);
      TrimLeftOf(a[1..], s);
    }
  }

  lemma {:induction false} TrimRightOf(s: string, b: string)
    requires AllSpace(b) && (s == "" || !IsSpace(s[|s| - 1]))
    ensures TrimRight(s + b) == s
  {
    if b == "" {
      assert s + b == s;
    } else {
      var n := |b| - 1;
      assert b[n] in b && forall c :: c in b[..n] ==> c in b;
      TrimRightOf(s, b[..n]);
      assert (s + b)[..|s + b| - 1] == s + b[..n] && (s + b)[|s + b| - 1] == b[n];
    }
  }

  /** Every string is white space, a trimmed part and white space again, and trimming leaves just that part. */
  lemma TrimOf(a: string, core: string, b: string)
    requires AllSpace(a) && Trimmed(core) && AllSpace(b)
    ensures Trim(a + (core + b)) == core
  {
    if core == "" {
      assert forall c :: c in a + b ==> c in a || c in b;
      TrimLeftOf(a + b, "");
      assert a + (core + b) == (a + b) + "" && TrimRight("") == "";
    } else {
      assert (core + b)[0] == core[0];
      TrimLeftOf(a, core + b);
      TrimRightOf(core, b);
    }
  }

  function Joined(lines: seq<string>): string {
    if lines == [] then "" else lines[0] + ("\n" + Joined(lines[1..]))
  }

  lemma {:induction false} IndexOfFirst(a: string, c: char, rest: string)
    requires c !in a
    ensures IndexOf(a + ([c] + rest), c) == |a|
  {
    if a == "" {
      assert a + ([c] + rest) == [c] + rest;
    } else {
      TailOfSum(a, [c] + rest);
      IndexOfFirst(a[1..], c, rest);
    }
  }

  lemma {:induction false} IndexOfNone(a: string, c: char)
    requires c !in a
    ensures IndexOf(a, c) == |a|
  {
    if a != "" { IndexOfNone(a[1..], c); }
  }

  lemma CutAt(a: string, c: char, rest: string)
    ensures (a + ([c] + rest))[..|a|] == a && (a + ([c] + rest))[|a| + 1..] == rest
  {}

  /** Every text is some lines, each with its newline, and an end without one that is not looked at. */
  lemma {:induction false} LinesOf(lines: seq<string>, end: string)
    requires '\n' !in end && forall l :: l in lines ==> '\n' !in l
    ensures Lines(Joined(lines) + end) == lines
    decreases |lines|
  {
    if lines == [] {
      assert Joined(lines) + end == end;
      IndexOfNone(end, '\n');
    } else {
      var l, rest := lines[0], Joined(lines[1..]) + end;
      assert l in lines;
      LinesOf(lines[1..], end);
      assert Joined(lines) + end == l + (['\n'] + rest);
      IndexOfFirst(l, '\n', rest);
      CutAt(l, '\n', rest);
      assert [l] + lines[1..] == lines;
    }
  }

  /** A line with white space around its key and its value: it matches if the key is no comment and starts with
      the search key, and the value is what is behind the first equals sign. */
  lemma LineOf(a: string, name: string, b: string, c: string, value: string, d: string, key: string)
    requires AllSpace(a) && Trimmed(name) && '=' !in name && AllSpace(b) && AllSpace(c) && Trimmed(value) && AllSpace(d)
    ensures var line := (a + (name + b)) + (['='] + (c + (value + d)));
      && (Matches(line, key) <==> (name == "" || name[0] != '#') && key <= name)
      && IndexOf(line, '=') < |line| && ValueOf(line) == value
  {
    var left, right := a + (name + b), c + (value + d);
    assert '=' !in left by { assert forall x :: x in left ==> x in a || x in name || x in b; }
    IndexOfFirst(left, '=', right);
    CutAt(left, '=', right);
    TrimOf(a, name, b);
    TrimOf(c, value, d);
  }

  /** A line without an equals sign never matches. */
  lemma NoEquals(line: string, key: string)
    requires '=' !in line
    ensures !Matches(line, key)
  {
    IndexOfNone(line, '=');
  }

  // ------------------------------------------------------------------ check_property agrees

  ghost predicate Contains(s: string, t: string) { exists i :: OccursAt(s, t, i) }

  ghost predicate OccursAt(s: string, t: string, i: int) {
    0 <= i && i + |t| <= |s| && forall j :: 0 <= j < |t| ==> s[i + j] == t[j]
  }

  lemma ContainsPart(s: string, a: nat, b: nat, t: string)
    requires a <= b <= |s| && Contains(s[a..b], t)
    ensures Contains(s, t)
  {
    var i :| OccursAt(s[a..b], t, i);
    assert OccursAt(s, t, a + i) by {
      forall j | 0 <= j < |t| ensures s[a + i + j] == t[j] { assert s[a..b][i + j] == t[j]; }
    }
  }

  lemma TrimContained(s: string, t: string)
    requires t <= Trim(s)
    ensures Contains(s, t)
  {
    var l := TrimLeft(s);
    var i := |s| - |l|;
    TrimLeftIsSuffix(s);
    TrimRightIsPrefix(l);
    forall j | 0 <= j < |t| ensures s[i + j] == t[j] {
      assert t[j] == Trim(s)[j] == l[j] == s[i..][j];
    }
    assert OccursAt(s, t, i);
  }

  lemma MatchContained(line: string, key: string)
    requires Matches(line, key)
    ensures Contains(line, key)
  {
    var i := IndexOf(line, '=');
    TrimContained(line[..i], key);
    assert line[0..i] == line[..i];
    ContainsPart(line, 0, i, key);
  }

  /** Whenever the lookup finds a line, check_property's substring search is true as well. */
  lemma {:induction false} FoundImpliesContains(data: string, key: string)
    requires FirstMatch(Lines(data), key).Some?
    ensures Contains(data, key)
    decreases |data|
  {
    var i := IndexOf(data, '\n');
    assert data[0..i] == data[..i] && data[i + 1..|data|] == data[i + 1..];
    if Matches(data[..i], key) {
      MatchContained(data[..i], key);
      ContainsPart(data, 0, i, key);
    } else {
      assert Lines(data)[1..] == Lines(data[i + 1..]);
      FoundImpliesContains(data[i + 1..], key);
      ContainsPart(data, i + 1, |data|, key);
    }
  }

  // ------------------------------------------------------------------ the scan

  /** strchr. */
  method FindChar(buf: array<char>, p: nat, c: char, ghost s: string) returns (r: Option<nat>)
    requires CString(buf[..], p, s) && c != NUL
    ensures r == if IndexOf(s, c) < |s| then Some(p + IndexOf(s, c)) else None
  {
    var i := 0;
    CStringIndex(buf[..], p, s, 0);
    while buf[p + i] != NUL && buf[p + i] != c
      invariant i <= |s| && forall j :: 0 <= j < i ==> s[j] != c
      invariant buf[p + i] == if i < |s| then s[i] else NUL
      decreases |s| - i
    {
      i := i + 1;
      CStringIndex(buf[..], p, s, i);
    }
    IndexIs(s, c, i);
    r := if buf[p + i] == c then Some(p + i) else None;
  }

  lemma IndexIs(s: string, c: char, i: nat)
    requires i <= |s| && (forall j :: 0 <= j < i ==> s[j] != c) && (i < |s| ==> s[i] == c)
    ensures IndexOf(s, c) == i
  {
    IndexOfMeans(s, c);
  }

  /** Moves past the white space at the front of a string. */
  method SkipSpace(buf: array<char>, start: nat, ghost s: string) returns (p: nat)
    requires CString(buf[..], start, s)
    ensures p == start + |s| - |TrimLeft(s)| && CString(buf[..], p, TrimLeft(s))
  {
    p := start;
    ghost var t := s;
    CStringIndex(buf[..], p, t, 0);
    while IsSpace(buf[p])
      invariant p + |t| == start + |s| && CString(buf[..], p, t) && TrimLeft(t) == TrimLeft(s)
      invariant buf[p] == if t == "" then NUL else t[0]
      decreases |t|
    {
      CStringSuffix(buf[..], p, t, 1);
      p, t := p + 1, t[1..];
      CStringIndex(buf[..], p, t, 0);
    }
  }

  /** Overwrites the white space at the end of a string with NULs, backwards from its last
      character; the string does not start with white space. */
  method TrimEnd(buf: array<char>, p: nat, last: int, ghost s: string)
    requires CString(buf[..], p, s) && last == p + |s| - 1 && (s == "" || !IsSpace(s[0]))
    modifies buf
    ensures CString(buf[..], p, TrimRight(s))
    ensures forall i :: 0 <= i < buf.Length && !(p <= i < p + |s|) ==> buf[i] == old(buf[i])
  {
    var tmp := last;
    ghost var t := s;
    while tmp > p && IsSpace(buf[tmp])
      invariant tmp == p + |t| - 1 && t <= s && CString(buf[..], p, t) && TrimRight(t) == TrimRight(s)
      invariant forall i :: 0 <= i < buf.Length && !(p <= i < p + |s|) ==> buf[i] == old(buf[i])
      decreases |t|
    {
      assert buf[tmp] == t[|t| - 1];
      buf[tmp] := NUL;
      t := t[..|t| - 1];
      tmp := tmp - 1;
    }
    if tmp >= p { assert buf[tmp] == t[|t| - 1]; }
  }

  /** The bounded comparison with the search key. */
  method StartsWith(buf: array<char>, p: nat, key: string, ghost s: string) returns (b: bool)
    requires CString(buf[..], p, s) && NUL !in key
    ensures b <==> key <= s
  {
    b := true;
    for i := 0 to |key|
      invariant i <= |s| && key[..i] == s[..i]
    {
      CStringIndex(buf[..], p, s, i);
      if buf[p + i] != key[i] {
        return false;
      }
      assert key[i] in key;
      assert key[..i + 1] == key[..i] + [key[i]] && s[..i + 1] == s[..i] + [s[i]];
    }
    assert key[..|key|] == key;
  }

  lemma {:induction false} TrimRightHead(s: string)
    requires s == "" || !IsSpace(s[0])
    ensures s != "" ==> TrimRight(s) != "" && TrimRight(s)[0] == s[0]
    decreases |s|
  {
    if s != "" && IsSpace(s[|s| - 1]) { TrimRightHead(s[..|s| - 1]); }
  }

  /** The body of the loop on one line, which ends right before address `eol`. */
  method ScanLine(buf: array<char>, start: nat, eol: nat, searchkey: string, ghost line: string)
    returns (hit: bool, value: nat)
    requires CString(buf[..], start, line) && eol == start + |line| + 1 && NUL !in searchkey
    modifies buf
    ensures hit <==> Matches(line, searchkey)
    ensures hit ==> CString(buf[..], value, ValueOf(line))
    ensures forall i :: 0 <= i < buf.Length && !(start <= i < eol - 1) ==> buf[i] == old(buf[i])
  {
    var eq := FindChar(buf, start, '=', line);
    ghost var k := IndexOf(line, '=');
    MatchesParts(line, searchkey);
    if eq.None? { return false, 0; }
    ghost var left, right := line[..k], line[k + 1..];
    Cut(buf, start, eq.value - start, line);
    hit, value := ScanParts(buf, start, eq.value + 1, eol, searchkey, left, right);
  }

  /** A line after its `=` has been cut out. */
  method ScanParts(buf: array<char>, start: nat, value: nat, eol: nat, searchkey: string, ghost left: string,
                   ghost right: string)
    returns (hit: bool, value': nat)
    requires CString(buf[..], start, left) && NUL !in searchkey
    requires CString(buf[..], value, right) && value == start + |left| + 1 && eol == value + |right| + 1
    modifies buf
    ensures hit <==> (TrimLeft(left) == "" || TrimLeft(left)[0] != '#') && searchkey <= Trim(left)
    ensures hit ==> CString(buf[..], value', Trim(right))
    ensures forall i :: 0 <= i < buf.Length && !(start <= i < eol - 1) ==> buf[i] == old(buf[i])
  {
    var key := SkipSpace(buf, start, left);
    CStringIndex(buf[..], key, TrimLeft(left), 0);
    if buf[key] == '#' { return false, 0; }
    TrimLeftIsSuffix(left);
    hit, value' := ScanPair(buf, key, value, eol, searchkey, TrimLeft(left), right);
  }

  /** Matching, in terms of the two parts that the code looks at. */
  lemma MatchesParts(line: string, searchkey: string)
    ensures var k := IndexOf(line, '=');
      Matches(line, searchkey) <==>
        && k < |line|
        && (var left := TrimLeft(line[..k]); (left == "" || left[0] != '#') && searchkey <= TrimRight(left))
  {
    var k := IndexOf(line, '=');
    TrimLeftIsSuffix(line[..k]);
    TrimRightHead(TrimLeft(line[..k]));
  }

  /** The value of a line, trimmed on both sides. */
  method TrimValue(buf: array<char>, value: nat, eol: nat, ghost right: string) returns (value': nat)
    requires CString(buf[..], value, right) && eol == value + |right| + 1
    modifies buf
    ensures CString(buf[..], value', Trim(right))
    ensures forall i :: 0 <= i < buf.Length && !(value <= i < eol - 1) ==> buf[i] == old(buf[i])
  {
    TrimLeftIsSuffix(right);
    value' := SkipSpace(buf, value, right);
    TrimEnd(buf, value', eol - 2, TrimLeft(right));
  }

  /** The key at `key` and the value at `value` of one line, already separated. */
  method ScanPair(buf: array<char>, key: nat, value: nat, eol: nat, searchkey: string, ghost left: string,
                  ghost right: string)
    returns (hit: bool, value': nat)
    requires CString(buf[..], key, left) && (left == "" || !IsSpace(left[0])) && NUL !in searchkey
    requires CString(buf[..], value, right) && value == key + |left| + 1 && eol == value + |right| + 1
    modifies buf
    ensures hit <==> searchkey <= TrimRight(left)
    ensures CString(buf[..], value', Trim(right))
    ensures forall i :: 0 <= i < buf.Length && !(key <= i < eol - 1) ==> buf[i] == old(buf[i])
  {
    TrimRightIsPrefix(left);
    TrimEnd(buf, key, value - 2, left);
    CStringFrame(old(buf[..]), buf[..], value, right);
    ghost var before := buf[..];
    value' := TrimValue(buf, value, eol, right);
    CStringFrame(before, buf[..], key, TrimRight(left));
    hit := StartsWith(buf, key, searchkey, TrimRight(left));
  }

  /** One round of the loop: the line is cut off the rest of the text and scanned. */
  method TakeLine(buf: array<char>, sol: nat, next: nat, searchkey: string, ghost line: string, ghost tail: string,
                  ghost rest: string)
    returns (found: Option<string>)
    requires CString(buf[..], sol, rest) && |line| < |rest| && line == rest[..|line|] && tail == rest[|line| + 1..]
    requires next == sol + |line| + 1 && NUL !in searchkey
    modifies buf
    ensures found == if Matches(line, searchkey) then Some(ValueOf(line)) else None
    ensures CString(buf[..], next, tail)
  {
    Cut(buf, sol, next - 1 - sol, rest);
    ghost var before := buf[..];
    var hit, value := ScanLine(buf, sol, next, searchkey, line);
    CStringFrame(before, buf[..], next, tail);
    if !hit { return None; }
    var text := ReadString(buf, value, ValueOf(line));
    found := Some(text);
  }

  lemma LinesStep(s: string, key: string)
    requires IndexOf(s, '\n') < |s|
    ensures var line, tail := s[..IndexOf(s, '\n')], s[IndexOf(s, '\n') + 1..];
      FirstMatch(Lines(s), key) == if Matches(line, key) then Some(ValueOf(line)) else FirstMatch(Lines(tail), key)
  {
    assert Lines(s)[1..] == Lines(s[IndexOf(s, '\n') + 1..]);
  }

  /** One round: the next line, if there is one, and what it leaves to be searched. */
  method ScanRound(buf: array<char>, sol: nat, searchkey: string, ghost rest: string)
    returns (more: bool, r: Option<string>, sol': nat, ghost rest': string)
    requires CString(buf[..], sol, rest) && NUL !in searchkey
    modifies buf
    ensures !more ==> r == FirstMatch(Lines(rest), searchkey)
    ensures more ==> CString(buf[..], sol', rest') && |rest'| < |rest|
    ensures more ==> FirstMatch(Lines(rest'), searchkey) == FirstMatch(Lines(rest), searchkey)
  {
    ghost var n := IndexOf(rest, '\n');
    sol', rest' := sol, rest;
    var eol := FindChar(buf, sol, '\n', rest);
    if eol.None? {
      LinesEnd(rest, searchkey);
      return false, None, sol, rest;
    }
    LinesStep(rest, searchkey);
    sol', rest' := eol.value + 1, rest[n + 1..];
    r := TakeLine(buf, sol, sol', searchkey, rest[..n], rest', rest);
    more := r.None?;
  }

  /** The loop over the lines: the value of the first line that matches. */
  method Scan(buf: array<char>, searchkey: string, ghost data: string) returns (r: Option<string>)
    requires CString(buf[..], 0, data) && NUL !in searchkey
    modifies buf
    ensures r == FirstMatch(Lines(data), searchkey)
  {
    var more, sol: nat := true, 0;
    r := None;
    ghost var rest, goal := data, FirstMatch(Lines(data), searchkey);
    while more
      invariant if more then CString(buf[..], sol, rest) && goal == FirstMatch(Lines(rest), searchkey) else r == goal
      decreases if more then |rest| + 1 else 0
    {
      more, r, sol, rest := ScanRound(buf, sol, searchkey, rest);
    }
  }

  lemma LinesEnd(s: string, key: string)
    requires IndexOf(s, '\n') == |s|
    ensures FirstMatch(Lines(s), key) == None
  {}

  /** get_property: the length and the text that is stored, or -1 with nothing stored. */
  method GetProperty(data: Option<string>, searchkey: string, notFound: string)
    returns (len: int, found: Option<string>)
    requires NUL !in searchkey && (data.Some? ==> NUL !in data.value)
    ensures var hit := if data.Some? then FirstMatch(Lines(data.value), searchkey) else None;
      if hit.None? then len == |notFound| && found == Some(notFound)
      else if |hit.value| >= 92 then len == -1 && found == None
      else len == |hit.value| && found == Some(hit.value)
  {
    if data.Some? {
      var text := data.value;
      var dup := new char[|text| + 1](i requires 0 <= i <= |text| => if i < |text| then text[i] else NUL);
      assert CString(dup[..], 0, text) by {
        forall i | 0 <= i < |text| ensures dup[..][0 + i] == text[i] != NUL { assert text[i] in text; }
      }
      var value := Scan(dup, searchkey, text);
      if value.Some? {
        if |value.value| >= VALUE_MAX { return -1, None; }
        return |value.value|, value;
      }
    }
    return |notFound|, Some(notFound);
  }
}
