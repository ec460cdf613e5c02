/** The in-place parser of jni/magiskpolicy/magiskpolicy.c.  A statement is a NUL-terminated string
    in a character buffer; strtok_r and the parser cut it up by writing NULs, and the parsed lists
    hold pointers into the buffer. */
module StatementParser {
  import opened Wrappers
  import opened PolicyModel
  import opened StatementSyntax
  import opened CStrings

  /** The first half of strtok_r: delimiters are skipped. */
  method SkipDelimiters(buf: array<char>, ds: set<char>, start: nat, ghost s: string) returns (p: nat, ghost t: string)
    requires CString(buf[..], start, s) && NUL !in ds
    ensures start <= p && p + |t| == start + |s| && CString(buf[..], p, t)
    ensures Tokens(ds, s) == Tokens(ds, t) && (t == "" || t[0] !in ds)
    ensures (buf[p] == NUL) == (t == "")
  {
    p, t := start, s;
    CStringIndex(buf[..], p, t, 0);
    while buf[p] in ds
      invariant start <= p && p + |t| == start + |s| && CString(buf[..], p, t)
      invariant buf[p] == if t == "" then NUL else t[0]
      invariant Tokens(ds, s) == Tokens(ds, t)
      decreases |t|
    {
      CStringSuffix(buf[..], p, t, 1);
      p, t := p + 1, t[1..];
      CStringIndex(buf[..], p, t, 0);
    }
  }

  /** The second half: the end of the word. */
  method FindEnd(buf: array<char>, ds: set<char>, start: nat, ghost t: string) returns (p: nat)
    requires CString(buf[..], start, t) && NUL !in ds
    ensures p == start + WordLength(ds, t) && p < buf.Length
    ensures buf[p] == if WordLength(ds, t) < |t| then t[WordLength(ds, t)] else NUL
    ensures (buf[p] == NUL) == (WordLength(ds, t) == |t|)
  {
    p := start;
    ghost var n := 0;
    CStringIndex(buf[..], start, t, 0);
    while buf[p] !in ds && buf[p] != NUL
      invariant p == start + n && n <= |t| && p < buf.Length
      invariant buf[p] == if n < |t| then t[n] else NUL
      invariant Free(ds, t[..n])
      decreases |t| - n
    {
      assert t[..n + 1] == t[..n] + [t[n]];
      p, n := p + 1, n + 1;
      CStringIndex(buf[..], start, t, n);
    }
    CStringIndex(buf[..], start, t, n);
    assert t == t[..n] + t[n..];
    WordLengthAppend(ds, t[..n], t[n..]);
  }

  /** Cuts the word that starts a string off it. */
  method TakeWord(buf: array<char>, ds: set<char>, start: nat, ghost t: string)
    returns (save: nat, ghost word: string, ghost rest: string)
    requires CString(buf[..], start, t) && t != "" && t[0] !in ds && NUL !in ds
    modifies buf
    ensures Tokens(ds, t) == [word] + Tokens(ds, rest) && IsToken(ds, word)
    ensures start + |word| < Limit(save, rest) && |word| + |rest| <= |t|
    ensures CString(buf[..], start, word) && CString(buf[..], save, rest)
    ensures forall i :: 0 <= i < buf.Length && !(start <= i < start + |t|) ==> buf[i] == old(buf[i])
  {
    var p := FindEnd(buf, ds, start, t);
    TokensOfWord(ds, t);
    word := t[..WordLength(ds, t)];
    save, rest := CutWord(buf, start, p - start, t);
  }

  method CutWord(buf: array<char>, start: nat, n: nat, ghost t: string) returns (save: nat, ghost rest: string)
    requires CString(buf[..], start, t) && 0 < n <= |t|
    modifies buf
    ensures rest == (if n < |t| then t[n + 1..] else "") && start + n < Limit(save, rest)
    ensures CString(buf[..], start, t[..n]) && CString(buf[..], save, rest)
    ensures forall i :: 0 <= i < buf.Length && !(start <= i < start + |t|) ==> buf[i] == old(buf[i])
  {
    CStringIndex(buf[..], start, t, n);
    if buf[start + n] != NUL {
      rest := t[n + 1..];
      Cut(buf, start, n, t);
      save := start + n + 1;
    } else {
      assert t[..n] == t && t[n..] == "";
      rest := "";
      CStringSuffix(buf[..], start, t, n);
      save := start + n;
    }
  }

  /** Behind this, nothing of the unread text has been written yet. */
  function Limit(save: nat, rest: string): nat { if rest == "" then save + 1 else save }

  /** strtok_r: returns the next token, if any, and the unread position. */
  method NextToken(buf: array<char>, ds: set<char>, start: nat, ghost s: string)
    returns (tok: Option<nat>, save: nat, ghost word: string, ghost rest: string)
    requires CString(buf[..], start, s) && NUL !in ds
    modifies buf
    ensures tok.None? ==> Tokens(ds, s) == []
    ensures tok.Some? ==>
      && Tokens(ds, s) == [word] + Tokens(ds, rest) && IsToken(ds, word)
      && start <= tok.value && tok.value + |word| < Limit(save, rest) && |word| + |rest| <= |s|
      && CString(buf[..], tok.value, word) && CString(buf[..], save, rest)
    ensures forall i :: 0 <= i < buf.Length && !(start <= i < start + |s|) ==> buf[i] == old(buf[i])
  {
    var p;
    ghost var t;
    p, t := SkipDelimiters(buf, ds, start, s);
    if buf[p] == NUL { return None, p, "", ""; }
    tok := Some(p);
    save, word, rest := TakeWord(buf, ds, p, t);
  }

  // ------------------------------------------------------------------ the parser

  /** A vector of pointers into the buffer, NULL for `*`, reads as the words `ws`, and every
      string it points to ends before `limit`. */
  ghost predicate Points(mem: string, ptrs: seq<Option<nat>>, ws: seq<string>, limit: int)
  {
    && |ptrs| == |ws|
    && forall i :: 0 <= i < |ptrs| ==> PointsTo(mem, ptrs[i], ws[i], limit)
  }

  ghost predicate PointsTo(mem: string, ptr: Option<nat>, w: string, limit: int)
  {
    match ptr
    case None => NameOf(w).None?
    case Some(a) => NameOf(w).Some? && CString(mem, a, w) && a + |w| < limit
  }

  /** All slots of a parse in progress. */
  ghost predicate Collected(mem: string, slots: seq<seq<Option<nat>>>, p: Progress, limit: int)
    requires p.Progress?
  {
    forall i :: 0 <= i < |slots| ==> Points(mem, slots[i], SlotWords(p, i), limit)
  }

  /** Writes at or beyond the limit leave the collected words alone. */
  lemma CollectedFrame(mem: string, mem': string, slots: seq<seq<Option<nat>>>, p: Progress, limit: int)
    requires p.Progress? && Collected(mem, slots, p, limit) && |mem| == |mem'|
    requires forall i :: 0 <= i < |mem| && i < limit ==> mem'[i] == mem[i]
    ensures Collected(mem', slots, p, limit)
  {
    forall i | 0 <= i < |slots| ensures Points(mem', slots[i], SlotWords(p, i), limit) {
      assert Points(mem, slots[i], SlotWords(p, i), limit);
      forall j | 0 <= j < |slots[i]| ensures PointsTo(mem', slots[i][j], SlotWords(p, i)[j], limit) {
        assert PointsTo(mem, slots[i][j], SlotWords(p, i)[j], limit);
      }
    }
  }

  lemma CollectedGrow(mem: string, slots: seq<seq<Option<nat>>>, p: Progress, limit: int, limit': int)
    requires p.Progress? && Collected(mem, slots, p, limit) && limit <= limit'
    ensures Collected(mem, slots, p, limit')
  {
    forall i | 0 <= i < |slots| ensures Points(mem, slots[i], SlotWords(p, i), limit') {
      assert Points(mem, slots[i], SlotWords(p, i), limit);
      forall j | 0 <= j < |slots[i]| ensures PointsTo(mem, slots[i][j], SlotWords(p, i)[j], limit') {
        assert PointsTo(mem, slots[i][j], SlotWords(p, i)[j], limit);
      }
    }
  }

  lemma CollectedPush(mem: string, shape: Shape, slots: seq<seq<Option<nat>>>, p: Progress, ptr: Option<nat>,
                      w: string, limit: int)
    requires p.Progress? && |slots| == |shape| && |p.done| < |shape|
    requires Collected(mem, slots, p, limit) && PointsTo(mem, ptr, w, limit)
    ensures Collected(mem, slots[|p.done| := slots[|p.done|] + [ptr]], Step(shape, p, Word(w)), limit)
  {
    var q, n := Step(shape, p, Word(w)), |p.done|;
    var slots' := slots[n := slots[n] + [ptr]];
    forall i | 0 <= i < |slots'| ensures Points(mem, slots'[i], SlotWords(q, i), limit) {
      assert Points(mem, slots[i], SlotWords(p, i), limit);
      assert i == n ==> SlotWords(q, i) == SlotWords(p, i) + [w];
    }
  }

  lemma CollectedBracket(mem: string, shape: Shape, slots: seq<seq<Option<nat>>>, p: Progress, g: Glyph, limit: int)
    requires p.Progress? && !g.Word? && Step(shape, p, g).Progress?
    requires Collected(mem, slots, p, limit)
    ensures Collected(mem, slots, Step(shape, p, g), limit)
  {
    forall i | 0 <= i < |slots| ensures Points(mem, slots[i], SlotWords(Step(shape, p, g), i), limit) {
      assert Points(mem, slots[i], SlotWords(p, i), limit);
      assert SlotWords(Step(shape, p, g), i) == SlotWords(p, i);
    }
  }

  function Tail(closing: bool, rest: string): seq<Glyph> { (if closing then [Close] else []) + Glyphs(rest) }

  /** The variables of the parser: the slot being filled, whether a bracket is open, the lists. */
  datatype Scan = Scan(state: nat, inBracket: bool, slots: seq<seq<Option<nat>>>)

  /** What the loop body does next: fail, look at the rest of the token, or fetch another one. */
  datatype Verdict = Reject | Again | Next

  // In what follows `goal` is where the automaton ends up on the whole text.

  /** Between tokens: `p` is the progress made and `rest`, at `save`, is unread. */
  ghost predicate Between(mem: string, shape: Shape, goal: Progress, c: Scan, p: Progress, save: nat, rest: string)
  {
    && |c.slots| == |shape| && p.Progress? && Sane(shape, p) && c.state == |p.done| && c.inBracket == p.open.Some?
    && CString(mem, save, rest)
    && Collected(mem, c.slots, p, Limit(save, rest))
    && goal == Steps(shape, p, Glyphs(rest))
  }

  /** At a token: `word`, at `t`, is what is left of it.  `closing` marks a word whose `}` has
      just been cut off: the code leaves the bracket before it stores that word. */
  ghost predicate Looking(mem: string, shape: Shape, goal: Progress, c: Scan, p: Progress, closing: bool, t: nat,
                          word: string, save: nat, rest: string)
  {
    && |c.slots| == |shape| && p.Progress? && Sane(shape, p) && c.state == |p.done|
    && c.inBracket == (p.open.Some? && !closing)
    && word != "" && (closing ==> p.open.Some? && word[0] != '{')
    && CString(mem, t, word) && CString(mem, save, rest) && t + |word| < Limit(save, rest)
    && Collected(mem, c.slots, p, t)
    && goal == Steps(shape, p, Lex(word) + Tail(closing, rest))
  }

  lemma BracketSlots(mem: string, shape: Shape, slots: seq<seq<Option<nat>>>, p: Progress, g: Glyph, limit: int,
                     limit': int)
    requires p.Progress? && !g.Word? && Step(shape, p, g).Progress?
    requires Collected(mem, slots, p, limit) && limit <= limit'
    ensures Collected(mem, slots, Step(shape, p, g), limit')
  {
    CollectedBracket(mem, shape, slots, p, g, limit);
    CollectedGrow(mem, slots, Step(shape, p, g), limit, limit');
  }

  /** Consuming `{` from the front of a token, whatever glyphs follow. */
  lemma OpenTaken(mem: string, shape: Shape, goal: Progress, slots: seq<seq<Option<nat>>>, p: Progress, word: string,
                  limit: int, limit': int, tail: seq<Glyph>)
    requires p.Progress? && Sane(shape, p) && p.open.None? && !WordOnly(shape, |p.done|)
    requires word != "" && word[0] == '{' && goal == Steps(shape, p, Lex(word) + tail)
    requires Collected(mem, slots, p, limit) && limit <= limit'
    ensures var q := Step(shape, p, Open);
      && q == p.(open := Some([])) && Sane(shape, q) && Collected(mem, slots, q, limit')
      && goal == Steps(shape, q, Lex(word[1..]) + tail)
  {
    LeftOpen(shape, p, word, tail);
    StepSane(shape, p, Open);
    BracketSlots(mem, shape, slots, p, Open, limit, limit');
  }

  /** A `{` with more behind it. */
  lemma OpenGlued(mem: string, shape: Shape, goal: Progress, c: Scan, p: Progress,
                  t: nat, word: string, save: nat, rest: string)
    requires Looking(mem, shape, goal, c, p, false, t, word, save, rest)
    requires |word| > 1 && word[0] == '{' && !c.inBracket && !WordOnly(shape, c.state)
    ensures Looking(mem, shape, goal, c.(inBracket := true), Step(shape, p, Open), false,
                    t + 1, word[1..], save, rest)
  {
    OpenTaken(mem, shape, goal, c.slots, p, word, t, t + 1, Tail(false, rest));
    CStringSuffix(mem, t, word, 1);
  }

  /** A lone `{`. */
  lemma OpenAlone(mem: string, shape: Shape, goal: Progress, c: Scan, p: Progress,
                  t: nat, word: string, save: nat, rest: string)
    requires Looking(mem, shape, goal, c, p, false, t, word, save, rest)
    requires |word| == 1 && word[0] == '{' && !c.inBracket && !WordOnly(shape, c.state)
    ensures Between(mem, shape, goal, c.(inBracket := true), Step(shape, p, Open), save, rest)
  {
    OpenTaken(mem, shape, goal, c.slots, p, word, t, Limit(save, rest), Tail(false, rest));
    assert word[1..] == "" && Lex("") + Tail(false, rest) == Glyphs(rest);
  }

  lemma OpenRejected(mem: string, shape: Shape, goal: Progress, c: Scan, p: Progress, closing: bool, t: nat,
                     word: string, save: nat, rest: string)
    requires Looking(mem, shape, goal, c, p, closing, t, word, save, rest)
    requires word[0] == '{' && (c.inBracket || WordOnly(shape, c.state))
    ensures goal == Rejected
  {
    LeftOpen(shape, p, word, Tail(closing, rest));
    StaysRejected(shape, Lex(word[1..]) + Tail(closing, rest));
  }

  /** A token that starts with `{`. */
  method ParseOpen(buf: array<char>, shape: Shape, ghost goal: Progress, c: Scan, ghost p: Progress,
                   ghost closing: bool, t: nat, ghost word: string, ghost save: nat, ghost rest: string)
    returns (v: Verdict, c': Scan, ghost p': Progress)
    requires Looking(buf[..], shape, goal, c, p, closing, t, word, save, rest) && word[0] == '{'
    ensures v.Reject? ==> goal == Rejected
    ensures v.Again? ==> |word| > 1 && Looking(buf[..], shape, goal, c', p', closing, t + 1, word[1..], save, rest)
    ensures v.Next? ==> Between(buf[..], shape, goal, c', p', save, rest)
  {
    if c.inBracket || WordOnly(shape, c.state) {
      OpenRejected(buf[..], shape, goal, c, p, closing, t, word, save, rest);
      return Reject, c, p;
    }
    c', p' := c.(inBracket := true), Step(shape, p, Open);
    CStringIndex(buf[..], t, word, 1);
    if buf[t + 1] != NUL {
      OpenGlued(buf[..], shape, goal, c, p, t, word, save, rest);
      v := Again;
    } else {
      OpenAlone(buf[..], shape, goal, c, p, t, word, save, rest);
      v := Next;
    }
  }

  lemma CloseAlone(shape: Shape, p: Progress, rest: string)
    ensures Steps(shape, p, Lex("}") + Tail(false, rest)) == Steps(shape, Step(shape, p, Close), Glyphs(rest))
  {
    assert "}"[..0] == "" && Lex("}") == Lex("") + [Close] == [Close];
    assert Tail(false, rest) == Glyphs(rest);
    StepsOne(shape, p, Close, Glyphs(rest));
  }

  /** A lone `}` ends the bracket. */
  lemma CloseStep(mem: string, shape: Shape, goal: Progress, c: Scan, p: Progress, t: nat, word: string, save: nat,
                  rest: string)
    requires Looking(mem, shape, goal, c, p, false, t, word, save, rest) && word == "}" && c.inBracket
    ensures Between(mem, shape, goal, Scan(c.state + 1, false, c.slots), Step(shape, p, Close), save, rest)
  {
    CloseAlone(shape, p, rest);
    StepSane(shape, p, Close);
    BracketSlots(mem, shape, c.slots, p, Close, t, Limit(save, rest));
  }

  /** Cutting the `}` off a longer token. */
  lemma CloseCut(mem: string, mem': string, shape: Shape, goal: Progress, c: Scan, p: Progress, t: nat, word: string,
                 save: nat, rest: string)
    requires Looking(mem, shape, goal, c, p, false, t, word, save, rest) && c.inBracket
    requires |word| > 1 && word[0] != '{' && word[|word| - 1] == '}'
    requires |mem'| == |mem| && CString(mem', t, word[..|word| - 1])
    requires forall i :: 0 <= i < |mem| && i != t + |word| - 1 ==> mem'[i] == mem[i]
    ensures Looking(mem', shape, goal, c.(inBracket := false), p, true, t, word[..|word| - 1], save, rest)
  {
    assert Tail(false, rest) == Glyphs(rest) && Tail(true, rest) == [Close] + Glyphs(rest);
    LeftClose(word, Glyphs(rest));
    CStringFrame(mem, mem', save, rest);
    CollectedFrame(mem, mem', c.slots, p, t);
  }

  /** A token that ends with `}`. */
  method ParseClose(buf: array<char>, shape: Shape, ghost goal: Progress, c: Scan, ghost p: Progress,
                    ghost closing: bool, t: nat, len: nat, ghost word: string, ghost save: nat, ghost rest: string)
    returns (v: Verdict, c': Scan)
    requires Looking(buf[..], shape, goal, c, p, closing, t, word, save, rest)
    requires len == |word| && word[0] != '{' && word[len - 1] == '}'
    modifies buf
    ensures v.Reject? ==> goal == Rejected
    ensures v.Again? ==> |word| > 1 && Looking(buf[..], shape, goal, c', p, true, t, word[..len - 1], save, rest)
    ensures v.Next? ==> Between(buf[..], shape, goal, c', Step(shape, p, Close), save, rest)
  {
    if !c.inBracket || WordOnly(shape, c.state) {
      CloseRejected(shape, p, word, closing, Glyphs(rest));
      return Reject, c;
    }
    if len - 1 != 0 {
      Cut(buf, t, len - 1, word);
      CloseCut(old(buf[..]), buf[..], shape, goal, c, p, t, word, save, rest);
      c', v := c.(inBracket := false), Again;
    } else {
      assert word == "}";
      CloseStep(buf[..], shape, goal, c, p, t, word, save, rest);
      c', v := c.(inBracket := false, state := c.state + 1), Next;
    }
  }

  lemma WordSlots(mem: string, shape: Shape, slots: seq<seq<Option<nat>>>, p: Progress, t: nat, word: string,
                  limit: int)
    requires p.Progress? && |slots| == |shape| && |p.done| < |shape| && word != ""
    requires Collected(mem, slots, p, t) && CString(mem, t, word) && t + |word| < limit
    ensures var ptr := if word[0] == '*' then None else Some(t);
      Collected(mem, slots[|p.done| := slots[|p.done|] + [ptr]], Step(shape, p, Word(word)), limit)
  {
    var ptr := if word[0] == '*' then None else Some(t);
    CollectedGrow(mem, slots, p, t, limit);
    assert PointsTo(mem, ptr, word, limit);
    CollectedPush(mem, shape, slots, p, ptr, word, limit);
  }

  /** Storing a word in the current slot, whatever glyphs follow. */
  lemma WordStored(mem: string, shape: Shape, goal: Progress, slots: seq<seq<Option<nat>>>, p: Progress,
                   t: nat, word: string, limit: int, tail: seq<Glyph>)
    requires p.Progress? && Sane(shape, p) && |slots| == |shape| && |p.done| < |shape|
    requires word != "" && word[0] != '{' && word[|word| - 1] != '}'
    requires Collected(mem, slots, p, t) && CString(mem, t, word) && t + |word| < limit
    requires goal == Steps(shape, p, Lex(word) + tail)
    ensures var q := Step(shape, p, Word(word));
      var ptr := if word[0] == '*' then None else Some(t);
      && q.Progress? && Sane(shape, q) && Collected(mem, slots[|p.done| := slots[|p.done|] + [ptr]], q, limit)
      && goal == Steps(shape, q, tail)
  {
    LeftWord(shape, p, word, tail);
    WordSlots(mem, shape, slots, p, t, word, limit);
    StepSane(shape, p, Word(word));
  }

  /** Leaving the bracket behind a word whose `}` has been cut off. */
  lemma CloseStored(mem: string, shape: Shape, goal: Progress, slots: seq<seq<Option<nat>>>, q: Progress,
                    limit: int, tail: seq<Glyph>)
    requires q.Progress? && Sane(shape, q) && q.open.Some? && Collected(mem, slots, q, limit)
    requires goal == Steps(shape, q, [Close] + tail)
    ensures var r := Step(shape, q, Close);
      && r == Progress(q.done + [Braced(q.open.value)], None) && Sane(shape, r) && Collected(mem, slots, r, limit)
      && goal == Steps(shape, r, tail)
  {
    StepsOne(shape, q, Close, tail);
    StepSane(shape, q, Close);
    BracketSlots(mem, shape, slots, q, Close, limit, limit);
  }

  /** Storing a word, and leaving the bracket if its `}` has been cut off. */
  lemma WordStep(mem: string, shape: Shape, goal: Progress, c: Scan, p: Progress, closing: bool,
                 t: nat, word: string, save: nat, rest: string, c': Scan)
    requires Looking(mem, shape, goal, c, p, closing, t, word, save, rest)
    requires word[0] != '{' && word[|word| - 1] != '}' && c.state < |shape|
    requires c' == Scan(c.state + (if c.inBracket then 0 else 1), c.inBracket,
                        c.slots[c.state := c.slots[c.state] + [if word[0] == '*' then None else Some(t)]])
    ensures var q := Step(shape, p, Word(word));
      Between(mem, shape, goal, c', if closing then Step(shape, q, Close) else q, save, rest)
  {
    WordStored(mem, shape, goal, c.slots, p, t, word, Limit(save, rest), Tail(closing, rest));
    if closing {
      assert Tail(true, rest) == [Close] + Glyphs(rest);
      CloseStored(mem, shape, goal, c'.slots, Step(shape, p, Word(word)), Limit(save, rest), Glyphs(rest));
    } else {
      assert Tail(false, rest) == Glyphs(rest);
    }
  }

  /** A word: it is stored in the current slot. */
  method ParseWord(buf: array<char>, shape: Shape, ghost goal: Progress, c: Scan, ghost p: Progress,
                   ghost closing: bool, t: nat, ghost word: string, ghost save: nat, ghost rest: string)
    returns (v: Verdict, c': Scan, ghost p': Progress)
    requires Looking(buf[..], shape, goal, c, p, closing, t, word, save, rest)
    requires word[0] != '{' && word[|word| - 1] != '}'
    ensures v.Reject? ==> goal == Rejected
    ensures v.Next? ==> Between(buf[..], shape, goal, c', p', save, rest)
    ensures !v.Again?
  {
    CStringIndex(buf[..], t, word, 0);
    var ptr := if buf[t] == '*' then None else Some(t);
    if c.state >= |shape| {
      LeftWord(shape, p, word, Tail(closing, rest));
      StaysRejected(shape, Tail(closing, rest));
      return Reject, c, p;
    }
    c' := c.(slots := c.slots[c.state := c.slots[c.state] + [ptr]]);
    if !c'.inBracket { c' := c'.(state := c'.state + 1); }
    WordStep(buf[..], shape, goal, c, p, closing, t, word, save, rest, c');
    p' := Step(shape, p, Word(word));
    if closing { p' := Step(shape, p', Close); }
    v := Next;
  }

  /** The tokenising loop shared by parse_pattern_1, parse_pattern_2 and parse_pattern_5, which
      differ only in their shape. */
  method ParseSlots(buf: array<char>, start: nat, shape: Shape, ghost text: string)
    returns (ok: bool, slots: seq<seq<Option<nat>>>)
    requires CString(buf[..], start, text)
    modifies buf
    ensures ok <==> Parse(shape, Glyphs(text)).Some?
    ensures ok ==> |slots| == |shape|
    ensures ok ==> forall i :: 0 <= i < |shape| ==>
      Points(buf[..], slots[i], Words(Parse(shape, Glyphs(text)).value[i]), buf.Length)
  {
    var c := Scan(0, false, seq(|shape|, _ => []));
    StartOfText(buf[..], shape, text, c, start);
    ghost var p;
    ok, c, p := ParseTokens(buf, shape, Steps(shape, START, Glyphs(text)), c, start, text);
    slots := c.slots;
    if ok {
      EndOfText(buf[..], shape, text, c, p);
      ok := c.state == |shape|;
    }
  }

  lemma StartOfText(mem: string, shape: Shape, text: string, c: Scan, start: nat)
    requires CString(mem, start, text) && c == Scan(0, false, seq(|shape|, _ => []))
    ensures Between(mem, shape, Steps(shape, START, Glyphs(text)), c, START, start, text)
  {
    StepsRead(shape, []);
  }

  lemma EndOfText(mem: string, shape: Shape, text: string, c: Scan, p: Progress)
    requires Finished(mem, shape, Steps(shape, START, Glyphs(text)), c, p)
    ensures c.state == |shape| <==> Parse(shape, Glyphs(text)).Some?
    ensures c.state == |shape| ==> forall i :: 0 <= i < |shape| ==>
      Points(mem, c.slots[i], Words(Parse(shape, Glyphs(text)).value[i]), |mem|)
  {}

  method ParseTokens(buf: array<char>, shape: Shape, ghost goal: Progress, c0: Scan, start: nat, ghost text: string)
    returns (ok: bool, c: Scan, ghost p: Progress)
    requires Between(buf[..], shape, goal, c0, START, start, text)
    modifies buf
    ensures !ok ==> goal == Rejected
    ensures ok ==> Finished(buf[..], shape, goal, c, p)
  {
    ghost var word, rest, closing := "", "", false;
    p := START;
    var tok, save;
    tok, save, c, word, rest := Fetch(buf, shape, goal, c0, p, start, text);
    while tok.Some?
      invariant tok.Some? ==> Looking(buf[..], shape, goal, c, p, closing, tok.value, word, save, rest)
      invariant tok.None? ==> Finished(buf[..], shape, goal, c, p)
      decreases if tok.Some? then |rest| + 1 else 0, if tok.Some? then |word| else 0
    {
      var v, t;
      v, c, t, p, closing, word := ParseToken(buf, shape, goal, c, p, closing, tok.value, word, save, rest);
      tok := Some(t);
      if v.Reject? { return false, c, p; }
      if v.Next? {
        closing := false;
        tok, save, c, word, rest := Fetch(buf, shape, goal, c, p, save, rest);
      }
    }
    ok := true;
  }

  /** The length of a token and the characters at its ends. */
  method Ends(buf: array<char>, t: nat, ghost word: string) returns (len: nat, first: char, last: char)
    requires CString(buf[..], t, word) && word != ""
    ensures len == |word| && first == word[0] && last == word[|word| - 1]
  {
    len := Strlen(buf, t, word);
    CStringIndex(buf[..], t, word, 0);
    CStringIndex(buf[..], t, word, len - 1);
    first, last := buf[t], buf[t + len - 1];
  }

  /** The body of the loop, up to the call of strtok_r. */
  method ParseToken(buf: array<char>, shape: Shape, ghost goal: Progress, c: Scan, ghost p: Progress,
                    ghost closing: bool, t: nat, ghost word: string, ghost save: nat, ghost rest: string)
    returns (v: Verdict, c': Scan, t': nat, ghost p': Progress, ghost closing': bool, ghost word': string)
    requires Looking(buf[..], shape, goal, c, p, closing, t, word, save, rest)
    modifies buf
    ensures v.Reject? ==> goal == Rejected
    ensures v.Again? ==> |word'| < |word| && Looking(buf[..], shape, goal, c', p', closing', t', word', save, rest)
    ensures v.Next? ==> Between(buf[..], shape, goal, c', p', save, rest)
  {
    var len, first, last := Ends(buf, t, word);
    t', closing', word' := t, closing, word;
    if first == '{' {
      v, c', p' := ParseOpen(buf, shape, goal, c, p, closing, t, word, save, rest);
      t', word' := t + 1, word[1..];
    } else if last == '}' {
      v, c' := ParseClose(buf, shape, goal, c, p, closing, t, len, word, save, rest);
      p', word', closing' := if v.Next? then Step(shape, p, Close) else p, word[..len - 1], true;
    } else {
      v, c', p' := ParseWord(buf, shape, goal, c, p, closing, t, word, save, rest);
    }
  }

  ghost predicate Finished(mem: string, shape: Shape, goal: Progress, c: Scan, p: Progress)
  {
    && |c.slots| == |shape| && p.Progress? && c.state == |p.done| && Collected(mem, c.slots, p, |mem|)
    && goal == p
  }

  /** The call of strtok_r at the end of the loop body. */
  method Fetch(buf: array<char>, shape: Shape, ghost goal: Progress, c: Scan, ghost p: Progress, start: nat,
               ghost s: string)
    returns (tok: Option<nat>, save: nat, c': Scan, ghost word: string, ghost rest: string)
    requires Between(buf[..], shape, goal, c, p, start, s)
    modifies buf
    ensures c' == c
    ensures tok.None? ==> Finished(buf[..], shape, goal, c, p)
    ensures tok.Some? ==> Looking(buf[..], shape, goal, c, p, false, tok.value, word, save, rest) && |rest| < |s|
  {
    c' := c;
    tok, save, word, rest := NextToken(buf, BLANK, start, s);
    CollectedFrame(old(buf[..]), buf[..], c.slots, p, Limit(start, s));
    if tok.Some? {
      assert Glyphs(s) == Lex(word) + Tail(false, rest);
      CollectedGrow(buf[..], c.slots, p, start, tok.value);
    } else {
      CollectedGrow(buf[..], c.slots, p, Limit(start, s), buf.Length);
    }
  }

  // ------------------------------------------------------------------ plain lists of words

  /** Pointers to words, all of which end before `limit`. */
  ghost predicate Strings(mem: string, ptrs: seq<nat>, ws: seq<string>, limit: int) {
    |ptrs| == |ws| && forall i :: 0 <= i < |ptrs| ==> StringBefore(mem, ptrs[i], ws[i], limit)
  }

  ghost predicate StringBefore(mem: string, a: nat, w: string, limit: int) { CString(mem, a, w) && a + |w| < limit }

  lemma StringsFrame(mem: string, mem': string, ptrs: seq<nat>, ws: seq<string>, limit: int, limit': int)
    requires Strings(mem, ptrs, ws, limit) && |mem| == |mem'| && limit <= limit'
    requires forall i :: 0 <= i < |mem| && i < limit ==> mem'[i] == mem[i]
    ensures Strings(mem', ptrs, ws, limit')
  {
    forall i | 0 <= i < |ptrs| ensures StringBefore(mem', ptrs[i], ws[i], limit') {
      assert StringBefore(mem, ptrs[i], ws[i], limit);
    }
  }

  lemma StringsPush(mem: string, ptrs: seq<nat>, ws: seq<string>, a: nat, w: string, limit: int)
    requires Strings(mem, ptrs, ws, a) && StringBefore(mem, a, w, limit)
    ensures Strings(mem, ptrs + [a], ws + [w], limit)
  {
    forall i | 0 <= i < |ptrs| ensures StringBefore(mem, ptrs[i], ws[i], limit) {
      assert StringBefore(mem, ptrs[i], ws[i], a);
    }
  }

  /** The words `done` have been stored and `rest`, at `save`, is unread. */
  ghost predicate Stored(mem: string, ds: set<char>, goal: seq<string>, ptrs: seq<nat>, done: seq<string>, save: nat,
                         rest: string) {
    Strings(mem, ptrs, done, Limit(save, rest)) && CString(mem, save, rest) && goal == done + Tokens(ds, rest)
  }

  lemma StoredPush(mem: string, mem': string, ds: set<char>, goal: seq<string>, ptrs: seq<nat>, done: seq<string>,
                   start: nat, s: string, a: nat, w: string, save: nat, rest: string)
    requires Stored(mem, ds, goal, ptrs, done, start, s) && s != ""
    requires |mem| == |mem'| && forall i :: 0 <= i < start && i < |mem| ==> mem'[i] == mem[i]
    requires Tokens(ds, s) == [w] + Tokens(ds, rest)
    requires start <= a && StringBefore(mem', a, w, Limit(save, rest)) && CString(mem', save, rest)
    ensures Stored(mem', ds, goal, ptrs + [a], done + [w], save, rest)
  {
    StringsFrame(mem, mem', ptrs, done, start, a);
    StringsPush(mem', ptrs, done, a, w, Limit(save, rest));
  }

  /** The loop of parse_pattern_3 and parse_pattern_4: every token is stored. */
  method CollectWords(buf: array<char>, ds: set<char>, start: nat, ghost text: string) returns (ptrs: seq<nat>)
    requires CString(buf[..], start, text) && NUL !in ds
    modifies buf
    ensures Strings(buf[..], ptrs, Tokens(ds, text), buf.Length)
  {
    ghost var goal, done, rest := Tokens(ds, text), [], text;
    var more, save := true, start;
    ptrs := [];
    while more
      invariant if more then Stored(buf[..], ds, goal, ptrs, done, save, rest)
                else Strings(buf[..], ptrs, goal, buf.Length)
      decreases if more then |rest| + 1 else 0
    {
      more, ptrs, save, done, rest := StoreWord(buf, ds, goal, ptrs, done, save, rest);
    }
  }

  method StoreWord(buf: array<char>, ds: set<char>, ghost goal: seq<string>, ptrs: seq<nat>, ghost done: seq<string>,
                   start: nat, ghost s: string)
    returns (more: bool, ptrs': seq<nat>, save: nat, ghost done': seq<string>, ghost rest: string)
    requires Stored(buf[..], ds, goal, ptrs, done, start, s) && NUL !in ds
    modifies buf
    ensures if more then Stored(buf[..], ds, goal, ptrs', done', save, rest) && |rest| < |s|
            else Strings(buf[..], ptrs', goal, buf.Length)
  {
    var tok;
    ghost var word;
    tok, save, word, rest := NextToken(buf, ds, start, s);
    more, ptrs', done' := tok.Some?, ptrs, done;
    if tok.Some? {
      StoredPush(old(buf[..]), buf[..], ds, goal, ptrs, done, start, s, tok.value, word, save, rest);
      ptrs', done' := ptrs + [tok.value], done + [word];
    } else {
      assert goal == done;
      StringsFrame(old(buf[..]), buf[..], ptrs, done, Limit(start, s), buf.Length);
    }
  }

  method ReadWords(buf: array<char>, ptrs: seq<nat>, ghost ws: seq<string>) returns (words: seq<string>)
    requires Strings(buf[..], ptrs, ws, buf.Length)
    ensures words == ws
  {
    words := [];
    for i := 0 to |ptrs|
      invariant words == ws[..i]
    {
      assert StringBefore(buf[..], ptrs[i], ws[i], buf.Length);
      var s := ReadString(buf, ptrs[i], ws[i]);
      words := words + [s];
    }
  }
}
