/** The statement language of jni/magiskpolicy/magiskpolicy.c: the grammar of statement bodies, the
    bracket automaton that recognises it, and the different ways of writing one statement. */
module StatementSyntax {
  import opened Wrappers
  import opened PolicyModel

  // ------------------------------------------------------------------ grammar

  datatype Glyph = Open | Close | Word(text: string)

  /** A position of a statement takes a set of words or exactly one word. */
  datatype Slot = SetSlot | WordSlot
  type Shape = seq<Slot>

  const PATTERN1: Shape := [SetSlot, SetSlot, WordSlot, SetSlot]
  const PATTERN2: Shape := [SetSlot, SetSlot]
  const PATTERN5: Shape := [SetSlot, SetSlot, SetSlot, WordSlot, WordSlot]

  datatype Item = Bare(word: string) | Braced(words: seq<string>)

  function Words(i: Item): seq<string> { if i.Bare? then [i.word] else i.words }

  function WordGlyphs(ws: seq<string>): seq<Glyph> { seq(|ws|, i requires 0 <= i < |ws| => Word(ws[i])) }

  function ItemGlyphs(i: Item): seq<Glyph> {
    if i.Bare? then [Word(i.word)] else [Open] + WordGlyphs(i.words) + [Close]
  }

  function ItemsGlyphs(items: seq<Item>): seq<Glyph> {
    if items == [] then [] else ItemsGlyphs(items[..|items| - 1]) + ItemGlyphs(items[|items| - 1])
  }

  predicate Fits(shape: Shape, items: seq<Item>) {
    |items| == |shape| && forall i :: 0 <= i < |items| && shape[i] == WordSlot ==> items[i].Bare?
  }

  /** The language: one item per slot, with an optional lone `{` at the very end. */
  predicate Derives(shape: Shape, gs: seq<Glyph>, items: seq<Item>) {
    Fits(shape, items) && (gs == ItemsGlyphs(items) || gs == ItemsGlyphs(items) + [Open])
  }

  // ------------------------------------------------------------------ automaton

  /** Finished items, and the words of the bracket that is open, if one is. */
  datatype Progress = Progress(done: seq<Item>, open: Option<seq<string>>) | Rejected

  const START: Progress := Progress([], None)

  predicate WordOnly(shape: Shape, slot: nat) { slot < |shape| && shape[slot] == WordSlot }

  function Step(shape: Shape, p: Progress, g: Glyph): Progress {
    if p.Rejected? then p
    else match g
      case Open => if p.open.Some? || WordOnly(shape, |p.done|) then Rejected else p.(open := Some([]))
      case Close =>
        if p.open.None? || WordOnly(shape, |p.done|) then Rejected
        else Progress(p.done + [Braced(p.open.value)], None)
      case Word(w) =>
        if |p.done| >= |shape| then Rejected
        else if p.open.Some? then p.(open := Some(p.open.value + [w]))
        else p.(done := p.done + [Bare(w)])
  }

  function Steps(shape: Shape, p: Progress, gs: seq<Glyph>): Progress {
    if gs == [] then p else Step(shape, Steps(shape, p, gs[..|gs| - 1]), gs[|gs| - 1])
  }

  /** The items that the parser accepts a glyph sequence as, if it does. */
  function Parse(shape: Shape, gs: seq<Glyph>): (r: Option<seq<Item>>)
    ensures r.Some? ==> Fits(shape, r.value)
  {
    StepsRead(shape, gs);
    var p := Steps(shape, START, gs);
    if p.Progress? && |p.done| == |shape| then Some(p.done) else None
  }

  lemma Assoc(a: seq<Glyph>, b: seq<Glyph>, c: seq<Glyph>)
    ensures (a + b) + c == a + (b + c)
  {}

  lemma {:induction false} StepsAppend(shape: Shape, p: Progress, a: seq<Glyph>, b: seq<Glyph>)
    ensures Steps(shape, p, a + b) == Steps(shape, Steps(shape, p, a), b)
  {
    if b == [] {
      assert a + b == a;
    } else {
      StepsAppend(shape, p, a, b[..|b| - 1]);
      assert (a + b)[..|a + b| - 1] == a + b[..|b| - 1];
    }
  }

  lemma StepsOne(shape: Shape, p: Progress, g: Glyph, rest: seq<Glyph>)
    ensures Steps(shape, p, [g] + rest) == Steps(shape, Step(shape, p, g), rest)
    ensures Steps(shape, p, [g]) == Step(shape, p, g)
  {
    StepsAppend(shape, p, [g], rest);
    assert [g][..0] == [];
  }

  lemma {:induction false} StaysRejected(shape: Shape, gs: seq<Glyph>)
    ensures Steps(shape, Rejected, gs) == Rejected
  {
    if gs != [] { StaysRejected(shape, gs[..|gs| - 1]); }
  }

  // ------------------------------------------------------------------ soundness

  /** The glyphs that lead to a given progress. */
  function Read(p: Progress): seq<Glyph>
    requires p.Progress?
  {
    ItemsGlyphs(p.done) + if p.open.Some? then [Open] + WordGlyphs(p.open.value) else []
  }

  ghost predicate Sane(shape: Shape, p: Progress) {
    p.Progress? ==>
      && (forall i :: 0 <= i < |p.done| && WordOnly(shape, i) ==> p.done[i].Bare?)
      && (p.open.Some? ==> !WordOnly(shape, |p.done|))
      && (p.open.Some? && |p.done| >= |shape| ==> p.open.value == [])
  }

  lemma ItemsAppend(items: seq<Item>, i: Item)
    ensures ItemsGlyphs(items + [i]) == ItemsGlyphs(items) + ItemGlyphs(i)
  {
    assert (items + [i])[..|items|] == items;
  }

  lemma ReadBracket(done: seq<Item>, ws: seq<string>)
    ensures Read(Progress(done, Some([]))) == Read(Progress(done, None)) + [Open]
    ensures Read(Progress(done + [Braced(ws)], None)) == Read(Progress(done, Some(ws))) + [Close]
  {
    assert WordGlyphs([]) == [] && [Open] + [] == [Open] && ItemsGlyphs(done) + [] == ItemsGlyphs(done);
    ItemsAppend(done, Braced(ws));
    var a, b := ItemsGlyphs(done), [Open] + WordGlyphs(ws);
    assert (a + (b + [Close])) + [] == (a + b) + [Close];
  }

  lemma ReadWord(done: seq<Item>, ws: seq<string>, w: string)
    ensures Read(Progress(done, Some(ws + [w]))) == Read(Progress(done, Some(ws))) + [Word(w)]
    ensures Read(Progress(done + [Bare(w)], None)) == Read(Progress(done, None)) + [Word(w)]
  {
    assert WordGlyphs(ws + [w]) == WordGlyphs(ws) + [Word(w)];
    var a, b := ItemsGlyphs(done), WordGlyphs(ws);
    assert a + ([Open] + (b + [Word(w)])) == (a + ([Open] + b)) + [Word(w)];
    ItemsAppend(done, Bare(w));
    assert (a + [Word(w)]) + [] == (a + []) + [Word(w)];
  }

  lemma StepSane(shape: Shape, p: Progress, g: Glyph)
    requires Sane(shape, p)
    ensures Sane(shape, Step(shape, p, g))
  {}

  lemma StepReads(shape: Shape, p: Progress, g: Glyph)
    requires p.Progress? && Step(shape, p, g).Progress?
    ensures Read(Step(shape, p, g)) == Read(p) + [g]
  {
    match g
    case Open => ReadBracket(p.done, []);
    case Close => ReadBracket(p.done, p.open.value);
    case Word(w) => ReadWord(p.done, p.open.GetOr([]), w);
  }

  lemma StepReadsAny(shape: Shape, p: Progress, g: Glyph, gs: seq<Glyph>)
    requires Sane(shape, p) && (p.Progress? ==> Read(p) == gs)
    ensures Sane(shape, Step(shape, p, g))
    ensures Step(shape, p, g).Progress? ==> Read(Step(shape, p, g)) == gs + [g]
  {
    StepSane(shape, p, g);
    if Step(shape, p, g).Progress? { StepReads(shape, p, g); }
  }

  /** Whatever has been read without rejection is exactly what the progress records. */
  lemma {:induction false} StepsRead(shape: Shape, gs: seq<Glyph>)
    ensures Sane(shape, Steps(shape, START, gs))
    ensures Steps(shape, START, gs).Progress? ==> Read(Steps(shape, START, gs)) == gs
  {
    if gs != [] {
      var init := gs[..|gs| - 1];
      StepsRead(shape, init);
      StepReadsAny(shape, Steps(shape, START, init), gs[|gs| - 1], init);
      assert init + [gs[|gs| - 1]] == gs;
    }
  }

  // ------------------------------------------------------------------ completeness

  lemma {:induction false} StepsBracket(shape: Shape, done: seq<Item>, ws: seq<string>)
    requires |done| < |shape|
    ensures Steps(shape, Progress(done, Some([])), WordGlyphs(ws)) == Progress(done, Some(ws))
  {
    if ws != [] {
      var n := |ws| - 1;
      StepsBracket(shape, done, ws[..n]);
      assert WordGlyphs(ws)[..n] == WordGlyphs(ws[..n]);
      assert ws[..n] + [ws[n]] == ws;
    }
  }

  lemma StepsItem(shape: Shape, done: seq<Item>, i: Item)
    requires |done| < |shape| && (shape[|done|] == WordSlot ==> i.Bare?)
    ensures Steps(shape, Progress(done, None), ItemGlyphs(i)) == Progress(done + [i], None)
  {
    if i.Bare? {
      StepsOne(shape, Progress(done, None), Word(i.word), []);
    } else {
      StepsAppend(shape, Progress(done, None), [Open] + WordGlyphs(i.words), [Close]);
      StepsOne(shape, Progress(done, None), Open, WordGlyphs(i.words));
      StepsBracket(shape, done, i.words);
      StepsOne(shape, Progress(done, Some(i.words)), Close, []);
    }
  }

  lemma StepsSnoc(shape: Shape, init: seq<Item>, last: Item)
    requires |init| < |shape| && (shape[|init|] == WordSlot ==> last.Bare?)
    requires Reached(shape, init)
    ensures Reached(shape, init + [last])
  {
    ItemsAppend(init, last);
    StepsAppend(shape, START, ItemsGlyphs(init), ItemGlyphs(last));
    StepsItem(shape, init, last);
  }

  /** Items are read one after the other, whatever comes first. */
  lemma {:induction false} StepsItems(shape: Shape, items: seq<Item>, n: nat)
    requires Fits(shape, items) && n <= |items|
    ensures Reached(shape, items[..n])
  {
    if n > 0 {
      StepsItems(shape, items, n - 1);
      StepsSnoc(shape, items[..n - 1], items[n - 1]);
      SnocIs(shape, items, n);
    } else {
      assert items[..0] == [];
    }
  }

  predicate Reached(shape: Shape, items: seq<Item>) { Steps(shape, START, ItemsGlyphs(items)) == Progress(items, None) }

  lemma SnocIs(shape: Shape, items: seq<Item>, n: nat)
    requires 0 < n <= |items| && Reached(shape, items[..n - 1] + [items[n - 1]])
    ensures Reached(shape, items[..n])
  {
    SplitLast(items, n);
  }

  lemma SplitLast(items: seq<Item>, n: nat)
    requires 0 < n <= |items|
    ensures items[..n] == items[..n - 1] + [items[n - 1]]
  {}

  /** The automaton accepts exactly the language, and returns the items of the derivation. */
  lemma ParseExact(shape: Shape, gs: seq<Glyph>, items: seq<Item>)
    ensures Parse(shape, gs) == Some(items) <==> Derives(shape, gs, items)
  {
    if Parse(shape, gs) == Some(items) {
      StepsRead(shape, gs);
      assert WordGlyphs([]) == [];
      var p := Steps(shape, START, gs);
      assert p.open.Some? ==> p.open.value == [];
      assert [Open] + [] == [Open];
    }
    if Derives(shape, gs, items) {
      StepsItems(shape, items, |items|);
      assert items[..|items|] == items;
      if gs == ItemsGlyphs(items) + [Open] {
        StepsAppend(shape, START, ItemsGlyphs(items), [Open]);
        StepsOne(shape, Progress(items, None), Open, []);
      }
    }
  }

  /** A statement has at most one reading. */
  lemma Unambiguous(shape: Shape, gs: seq<Glyph>, a: seq<Item>, b: seq<Item>)
    requires Derives(shape, gs, a) && Derives(shape, gs, b)
    ensures a == b
  {
    ParseExact(shape, gs, a);
    ParseExact(shape, gs, b);
  }

  // ------------------------------------------------------------------ tokens

  /** Brackets are cut off a token from the outside in. */
  function Lex(tok: string): seq<Glyph>
    decreases |tok|
  {
    if tok == "" then []
    else if tok[0] == '{' then [Open] + Lex(tok[1..])
    else if tok[|tok| - 1] == '}' then Lex(tok[..|tok| - 1]) + [Close]
    else [Word(tok)]
  }

  function LexAll(toks: seq<string>): seq<Glyph> {
    if toks == [] then [] else Lex(toks[0]) + LexAll(toks[1..])
  }

  /** The delimiters that the statement patterns hand to strtok_r. */
  const BLANK: set<char> := {' '}
  const BRACKETS: set<char> := {' ', '{', '}'}

  /** No delimiter occurs in the text. */
  predicate Free(ds: set<char>, s: string) { forall c :: c in s ==> c !in ds }

  function WordLength(ds: set<char>, s: string): (n: nat)
    ensures n <= |s| && Free(ds, s[..n]) && (n < |s| ==> s[n] in ds)
  {
    if s == "" || s[0] in ds then 0 else 1 + WordLength(ds, s[1..])
  }

  /** The tokens that strtok_r finds with these delimiters. */
  function Tokens(ds: set<char>, s: string): seq<string>
    decreases |s|
  {
    if s == "" then []
    else if s[0] in ds then Tokens(ds, s[1..])
    else [s[..WordLength(ds, s)]] + Tokens(ds, s[WordLength(ds, s)..])
  }

  /** A text that starts with a word: the word, and the tokens behind the delimiter that ends it. */
  lemma TokensOfWord(ds: set<char>, t: string)
    requires t != "" && t[0] !in ds
    ensures var n := WordLength(ds, t);
      && 0 < n && IsToken(ds, t[..n])
      && Tokens(ds, t) == [t[..n]] + Tokens(ds, if n < |t| then t[n + 1..] else "")
  {
    var n := WordLength(ds, t);
    if n < |t| { TailOfSuffix(t, n); } else { assert t[n..] == ""; }
  }

  function Glyphs(s: string): seq<Glyph> { LexAll(Tokens(BLANK, s)) }

  /** `*`, and any other word that starts with `*`, stands for everything. */
  function NameOf(w: string): Name { if w != "" && w[0] == '*' then None else Some(w) }

  function NamesOf(ws: seq<string>): seq<Name> { seq(|ws|, i requires 0 <= i < |ws| => NameOf(ws[i])) }

  // ------------------------------------------------------------------ spacing

  /** Each bracket of a written item is either glued to its neighbour or a token of its own. */
  datatype Written = Written(item: Item, glueOpen: bool, glueClose: bool)

  predicate PlainWord(w: string) { w != "" && ' ' !in w && w[0] != '{' && w[|w| - 1] != '}' }

  predicate Plain(i: Item) { forall w :: w in Words(i) ==> PlainWord(w) }

  function Opened(toks: seq<string>, glue: bool): seq<string> {
    if glue && toks != [] then ["{" + toks[0]] + toks[1..] else ["{"] + toks
  }

  function Closed(toks: seq<string>, glue: bool): seq<string> {
    if glue && toks != [] then toks[..|toks| - 1] + [toks[|toks| - 1] + "}"] else toks + ["}"]
  }

  function WrittenTokens(w: Written): seq<string> {
    if w.item.Bare? then [w.item.word]
    else Opened(Closed(w.item.words, w.glueClose), w.glueOpen)
  }

  function AllTokens(ws: seq<Written>): seq<string> {
    if ws == [] then [] else AllTokens(ws[..|ws| - 1]) + WrittenTokens(ws[|ws| - 1])
  }

  function Items(ws: seq<Written>): seq<Item> { seq(|ws|, i requires 0 <= i < |ws| => ws[i].item) }

  /** Tokens with one space after each. */
  function Text(toks: seq<string>): string {
    if toks == [] then "" else toks[0] + " " + Text(toks[1..])
  }

  lemma {:induction false} LexAllAppend(a: seq<string>, b: seq<string>)
    ensures LexAll(a + b) == LexAll(a) + LexAll(b)
  {
    if a == [] {
      assert a + b == b;
    } else {
      LexAllAppend(a[1..], b);
      assert (a + b)[1..] == a[1..] + b && (a + b)[0] == a[0];
    }
  }

  lemma LexOne(t: string)
    ensures LexAll([t]) == Lex(t)
  {
    assert [t][1..] == [];
  }

  lemma {:induction false} LexPlain(ws: seq<string>)
    requires forall w :: w in ws ==> PlainWord(w)
    ensures LexAll(ws) == WordGlyphs(ws)
  {
    if ws != [] {
      LexPlain(ws[1..]);
      assert ws[0] in ws && Lex(ws[0]) == [Word(ws[0])];
      assert [Word(ws[0])] + WordGlyphs(ws[1..]) == WordGlyphs(ws);
    }
  }

  lemma LexOpened(toks: seq<string>, glue: bool)
    ensures LexAll(Opened(toks, glue)) == [Open] + LexAll(toks)
  {
    if glue && toks != [] {
      var t := "{" + toks[0];
      assert t[1..] == toks[0] && Lex(t) == [Open] + Lex(toks[0]);
      assert ([t] + toks[1..])[1..] == toks[1..];
      assert ([Open] + Lex(toks[0])) + LexAll(toks[1..]) == [Open] + (Lex(toks[0]) + LexAll(toks[1..]));
    } else {
      assert Lex("{") == [Open] by { assert "{"[1..] == ""; }
      assert (["{"] + toks)[1..] == toks;
    }
  }

  lemma LexClosed(toks: seq<string>, glue: bool)
    requires forall w :: w in toks ==> PlainWord(w)
    ensures LexAll(Closed(toks, glue)) == LexAll(toks) + [Close]
  {
    assert Lex("}") == [Close] by { assert "}"[..0] == ""; assert Lex("") == []; }
    if glue && toks != [] {
      var n := |toks| - 1;
      var t := toks[n] + "}";
      assert toks[n] in toks && PlainWord(toks[n]);
      assert t[..|t| - 1] == toks[n] && t[0] == toks[n][0];
      LexAllAppend(toks[..n], [t]);
      LexAllAppend(toks[..n], [toks[n]]);
      LexOne(t);
      LexOne(toks[n]);
      assert toks[..n] + [toks[n]] == toks;
    } else {
      LexAllAppend(toks, ["}"]);
      LexOne("}");
    }
  }

  lemma LexWritten(w: Written)
    requires Plain(w.item)
    ensures LexAll(WrittenTokens(w)) == ItemGlyphs(w.item)
  {
    if w.item.Bare? {
      assert w.item.word in Words(w.item) && PlainWord(w.item.word);
      LexOne(w.item.word);
    } else {
      LexOpened(Closed(w.item.words, w.glueClose), w.glueOpen);
      LexClosed(w.item.words, w.glueClose);
      LexPlain(w.item.words);
    }
  }

  lemma {:induction false} LexAllWritten(ws: seq<Written>)
    requires forall w :: w in ws ==> Plain(w.item)
    ensures LexAll(AllTokens(ws)) == ItemsGlyphs(Items(ws))
  {
    if ws != [] {
      var n := |ws| - 1;
      LexAllWritten(ws[..n]);
      LexWritten(ws[n]);
      LexAllAppend(AllTokens(ws[..n]), WrittenTokens(ws[n]));
      assert Items(ws)[..n] == Items(ws[..n]);
    }
  }

  predicate IsToken(ds: set<char>, t: string) { t != "" && Free(ds, t) }

  lemma {:induction false} WordLengthAppend(ds: set<char>, t: string, rest: string)
    requires Free(ds, t) && (rest == "" || rest[0] in ds)
    ensures WordLength(ds, t + rest) == |t|
  {
    if t == "" {
      assert t + rest == rest;
    } else {
      assert t[0] in t && forall c :: c in t[1..] ==> c in t;
      WordLengthAppend(ds, t[1..], rest);
      assert (t + rest)[1..] == t[1..] + rest;
    }
  }

  lemma {:induction false} TokensOfText(toks: seq<string>)
    requires forall t :: t in toks ==> IsToken(BLANK, t)
    ensures Tokens(BLANK, Text(toks)) == toks
  {
    if toks != [] {
      var t, rest := toks[0], " " + Text(toks[1..]);
      assert t in toks && IsToken(BLANK, t);
      TokensOfText(toks[1..]);
      assert Text(toks) == t + rest;
      WordLengthAppend(BLANK, t, rest);
      assert Text(toks)[..|t|] == t && Text(toks)[|t|..] == rest;
      assert rest[1..] == Text(toks[1..]);
    }
  }

  lemma ClosedAreTokens(toks: seq<string>, glue: bool, t: string)
    requires forall w :: w in toks ==> PlainWord(w)
    requires t in Closed(toks, glue)
    ensures IsToken(BLANK, t)
  {
    if t !in toks && t != "}" {
      var last := toks[|toks| - 1];
      assert last in toks && PlainWord(last) && t == last + "}";
    }
  }

  lemma WrittenTokensAre(w: Written, t: string)
    requires Plain(w.item) && t in WrittenTokens(w)
    ensures IsToken(BLANK, t)
  {
    if w.item.Bare? {
      assert w.item.word in Words(w.item) && PlainWord(w.item.word);
    } else {
      var inner := Closed(w.item.words, w.glueClose);
      assert forall x :: x in w.item.words ==> PlainWord(x);
      if t in inner {
        ClosedAreTokens(w.item.words, w.glueClose, t);
      } else if t != "{" {
        ClosedAreTokens(w.item.words, w.glueClose, inner[0]);
        assert t == "{" + inner[0];
      }
    }
  }

  lemma {:induction false} WrittenAreTokens(ws: seq<Written>, t: string)
    requires forall w :: w in ws ==> Plain(w.item)
    requires t in AllTokens(ws)
    ensures IsToken(BLANK, t)
  {
    var n := |ws| - 1;
    if t in AllTokens(ws[..n]) {
      WrittenAreTokens(ws[..n], t);
    } else {
      assert ws[n] in ws;
      WrittenTokensAre(ws[n], t);
    }
  }

  /** Every way of spacing and gluing the brackets of a statement parses to its own items. */
  lemma SpacingIrrelevant(shape: Shape, ws: seq<Written>)
    requires forall w :: w in ws ==> Plain(w.item)
    requires Fits(shape, Items(ws))
    ensures Parse(shape, Glyphs(Text(AllTokens(ws)))) == Some(Items(ws))
  {
    forall t | t in AllTokens(ws) ensures IsToken(BLANK, t) { WrittenAreTokens(ws, t); }
    TokensOfText(AllTokens(ws));
    LexAllWritten(ws);
    ParseExact(shape, ItemsGlyphs(Items(ws)), Items(ws));
  }

  /** A lone `{` behind any statement makes no difference. */
  lemma TrailingBracket(shape: Shape, ws: seq<Written>)
    requires forall w :: w in ws ==> Plain(w.item)
    requires Fits(shape, Items(ws))
    ensures Parse(shape, Glyphs(Text(AllTokens(ws) + ["{"]))) == Some(Items(ws))
  {
    var toks := AllTokens(ws) + ["{"];
    forall t | t in toks ensures IsToken(BLANK, t) { if t in AllTokens(ws) { WrittenAreTokens(ws, t); } }
    TokensOfText(toks);
    LexAllAppend(AllTokens(ws), ["{"]);
    LexOne("{");
    assert Lex("{") == [Open] by { assert "{"[1..] == ""; }
    LexAllWritten(ws);
    ParseExact(shape, ItemsGlyphs(Items(ws)) + [Open], Items(ws));
  }

  /** Bare words. */
  function Barely(ws: seq<string>): seq<Written> {
    seq(|ws|, i requires 0 <= i < |ws| => Written(Bare(ws[i]), false, false))
  }

  lemma BarelyInit(ws: seq<string>, n: nat)
    requires n + 1 == |ws|
    ensures Barely(ws)[..n] == Barely(ws[..n]) && ws[..n] + [ws[n]] == ws
  {}

  lemma {:induction false} BarelyTokens(ws: seq<string>)
    ensures AllTokens(Barely(ws)) == ws
  {
    if ws != [] {
      BarelyTokens(ws[..|ws| - 1]);
      BarelyInit(ws, |ws| - 1);
    }
  }

  /** A statement body, written `a b c d `. */
  const SAMPLE: seq<Written> := Barely(["a", "b", "c", "d"])

  lemma SampleIsPlain()
    ensures (forall w :: w in SAMPLE ==> Plain(w.item)) && Fits(PATTERN1, Items(SAMPLE))
  {}

  lemma SampleText()
    ensures Text(AllTokens(SAMPLE)) == "a b c d "
  {
    BarelyTokens(["a", "b", "c", "d"]);
    assert Text(["d"]) == "d " by { assert ["d"][1..] == [] && Text([]) == ""; }
    assert Text(["c", "d"]) == "c d " by { assert ["c", "d"][1..] == ["d"]; }
    assert Text(["b", "c", "d"]) == "b c d " by { assert ["b", "c", "d"][1..] == ["c", "d"]; }
    assert ["a", "b", "c", "d"][1..] == ["b", "c", "d"];
  }

  lemma {:induction false} TextSnoc(toks: seq<string>, t: string)
    ensures Text(toks + [t]) == Text(toks) + (t + " ")
  {
    if toks == [] {
      assert toks + [t] == [t] && [t][1..] == [] && Text([]) == "";
    } else {
      TailOfSum(toks, [t]);
      TextSnoc(toks[1..], t);
    }
  }

  /** It is accepted with a lone bracket behind it. */
  lemma AcceptedBracket()
    ensures Parse(PATTERN1, Glyphs("a b c d { ")) == Some(Items(SAMPLE))
  {
    SampleIsPlain();
    TrailingBracket(PATTERN1, SAMPLE);
    SampleText();
    TextSnoc(AllTokens(SAMPLE), "{");
    assert "a b c d " + ("{" + " ") == "a b c d { ";
  }

  // ------------------------------------------------------------------ any text

  /** Words with a gap behind each. */
  function Spaced(toks: seq<string>, gaps: seq<string>): string
    requires |toks| == |gaps|
  {
    if toks == [] then "" else toks[0] + (gaps[0] + Spaced(toks[1..], gaps[1..]))
  }

  predicate Gap(ds: set<char>, g: string) { forall c :: c in g ==> c in ds }

  /** Words without delimiters, and gaps that are all delimiters and none empty but perhaps the last. */
  ghost predicate WellSpaced(ds: set<char>, toks: seq<string>, gaps: seq<string>) {
    && |toks| == |gaps|
    && (forall i :: 0 <= i < |toks| ==> IsToken(ds, toks[i]) && Gap(ds, gaps[i]))
    && (forall i :: 0 <= i < |toks| - 1 ==> gaps[i] != "")
  }

  lemma {:induction false} TokensAfterGap(ds: set<char>, g: string, s: string)
    requires Gap(ds, g)
    ensures Tokens(ds, g + s) == Tokens(ds, s)
    decreases |g|
  {
    if g == "" {
      assert g + s == s;
    } else {
      assert g[0] in g && forall c :: c in g[1..] ==> c in g;
      TailOfSum(g, s);
      TokensAfterGap(ds, g[1..], s);
    }
  }

  lemma TokensOfFirst(ds: set<char>, t: string, rest: string)
    requires IsToken(ds, t) && (rest == "" || rest[0] in ds)
    ensures Tokens(ds, t + rest) == [t] + Tokens(ds, rest)
  {
    WordLengthAppend(ds, t, rest);
    SuffixOfSum(t, rest);
    assert t[0] in t && (t + rest)[0] == t[0] && (t + rest)[..|t|] == t;
  }

  lemma WellSpacedTail(ds: set<char>, toks: seq<string>, gaps: seq<string>)
    requires WellSpaced(ds, toks, gaps) && toks != []
    ensures IsToken(ds, toks[0]) && Gap(ds, gaps[0]) && WellSpaced(ds, toks[1..], gaps[1..])
    ensures |toks| > 1 ==> gaps[0] != "" && gaps[0][0] in ds
  {
    assert gaps[0] != "" ==> gaps[0][0] in gaps[0];
  }

  /** strtok_r finds exactly the words, whatever delimiters, and however many, stand before and between them. */
  lemma {:induction false} TokensOfGaps(ds: set<char>, lead: string, toks: seq<string>, gaps: seq<string>)
    requires Gap(ds, lead) && WellSpaced(ds, toks, gaps)
    ensures Tokens(ds, lead + Spaced(toks, gaps)) == toks
    decreases |toks|
  {
    TokensAfterGap(ds, lead, Spaced(toks, gaps));
    if toks != [] {
      WellSpacedTail(ds, toks, gaps);
      TokensOfGaps(ds, gaps[0], toks[1..], gaps[1..]);
      var rest := gaps[0] + Spaced(toks[1..], gaps[1..]);
      if |toks| == 1 {
        assert Spaced(toks[1..], gaps[1..]) == "" && rest == gaps[0];
        assert rest != "" ==> rest[0] in gaps[0];
      } else {
        assert rest[0] == gaps[0][0];
      }
      TokensOfFirst(ds, toks[0], rest);
      assert [toks[0]] + toks[1..] == toks;
    }
  }

  function Repeated(c: char, n: nat): string { seq(n, _ => c) }

  lemma RepeatedParts(c: char, n: nat, s: string)
    requires n > 0
    ensures (Repeated(c, n) + s)[0] == c && (Repeated(c, n) + s)[1..] == Repeated(c, n - 1) + s
    ensures var t := s + Repeated(c, n);
      t[|t| - 1] == c && t[..|t| - 1] == s + Repeated(c, n - 1)
  {}

  function Brackets(g: Glyph, n: nat): seq<Glyph> { seq(n, _ => g) }

  lemma BracketParts(g: Glyph, n: nat, s: seq<Glyph>)
    requires n > 0
    ensures [g] + (Brackets(g, n - 1) + s) == Brackets(g, n) + s
    ensures (s + Brackets(g, n - 1)) + [g] == s + Brackets(g, n)
  {}

  function Core(core: string): seq<Glyph> { if core == "" then [] else [Word(core)] }

  lemma {:induction false} LexCloses(core: string, n: nat)
    requires core == "" || (core[0] != '{' && core[|core| - 1] != '}')
    ensures Lex(core + Repeated('}', n)) == Core(core) + Brackets(Close, n)
  {
    var tok := core + Repeated('}', n);
    if n > 0 {
      LexCloses(core, n - 1);
      RepeatedParts('}', n, core);
      BracketParts(Close, n, Core(core));
      assert tok[0] == if core == "" then '}' else core[0];
    } else {
      assert tok == core;
    }
  }

  /** Every token is some `{`, a word or nothing, and some `}`, and is read as just that. */
  lemma {:induction false} LexForm(m: nat, core: string, n: nat)
    requires core == "" || (core[0] != '{' && core[|core| - 1] != '}')
    ensures Lex(Repeated('{', m) + (core + Repeated('}', n))) ==
      Brackets(Open, m) + ((if core == "" then [] else [Word(core)]) + Brackets(Close, n))
  {
    if m > 0 {
      LexForm(m - 1, core, n);
      RepeatedParts('{', m, core + Repeated('}', n));
      BracketParts(Open, m, Core(core) + Brackets(Close, n));
    } else {
      LexCloses(core, n);
      assert Repeated('{', 0) + (core + Repeated('}', n)) == core + Repeated('}', n);
    }
  }

  /** What the three patterns take. */
  lemma PatternShapes(items: seq<Item>)
    ensures Fits(PATTERN1, items) <==> |items| == 4 && items[2].Bare?
    ensures Fits(PATTERN2, items) <==> |items| == 2
    ensures Fits(PATTERN5, items) <==> |items| == 5 && items[3].Bare? && items[4].Bare?
  {
    if |items| == 5 && items[3].Bare? && items[4].Bare? {
      forall i | 0 <= i < 5 && PATTERN5[i] == WordSlot ensures items[i].Bare? { assert i == 3 || i == 4; }
    }
  }

  /** A word stands for everything exactly if it starts with `*`, and otherwise for itself. */
  lemma Wildcards(w: string)
    ensures NameOf(w) == None <==> w != "" && w[0] == '*'
    ensures NameOf(w) != None ==> NameOf(w) == Some(w)
  {}

  // ------------------------------------------------------------------ glyphs of the current token

  lemma LeftOpen(shape: Shape, p: Progress, tok: string, tail: seq<Glyph>)
    requires tok != "" && tok[0] == '{'
    ensures Steps(shape, p, Lex(tok) + tail) == Steps(shape, Step(shape, p, Open), Lex(tok[1..]) + tail)
  {
    Assoc([Open], Lex(tok[1..]), tail);
    StepsOne(shape, p, Open, Lex(tok[1..]) + tail);
  }

  lemma LeftWord(shape: Shape, p: Progress, tok: string, tail: seq<Glyph>)
    requires tok != "" && tok[0] != '{' && tok[|tok| - 1] != '}'
    ensures Steps(shape, p, Lex(tok) + tail) == Steps(shape, Step(shape, p, Word(tok)), tail)
  {
    StepsOne(shape, p, Word(tok), tail);
  }

  lemma LeftClose(tok: string, tail: seq<Glyph>)
    requires tok != "" && tok[0] != '{' && tok[|tok| - 1] == '}'
    ensures Lex(tok) + tail == Lex(tok[..|tok| - 1]) + ([Close] + tail)
  {
    Assoc(Lex(tok[..|tok| - 1]), [Close], tail);
  }

  lemma {:induction false} LexNoOpen(tok: string)
    requires tok == "" || tok[0] != '{'
    ensures Open !in Lex(tok)
    decreases |tok|
  {
    if tok != "" && tok[|tok| - 1] == '}' { LexNoOpen(tok[..|tok| - 1]); }
  }

  lemma {:induction false} StaysOutside(shape: Shape, p: Progress, gs: seq<Glyph>)
    requires Open !in gs && (p.Rejected? || p.open.None?)
    ensures Steps(shape, p, gs).Rejected? || Steps(shape, p, gs).open.None?
  {
    if gs != [] { StaysOutside(shape, p, gs[..|gs| - 1]); }
  }

  /** A closing bracket outside any bracket is fatal, whatever follows. */
  lemma CloseOutside(shape: Shape, p: Progress, gs: seq<Glyph>, tail: seq<Glyph>)
    requires Open !in gs && (p.Rejected? || p.open.None?)
    ensures Steps(shape, p, gs + ([Close] + tail)) == Rejected
  {
    StepsAppend(shape, p, gs, [Close] + tail);
    StaysOutside(shape, p, gs);
    StepsOne(shape, Steps(shape, p, gs), Close, tail);
    StaysRejected(shape, tail);
  }

  /** A token that ends in `}` with no bracket open, or one bracket too few. */
  lemma CloseRejected(shape: Shape, p: Progress, tok: string, closing: bool, tail: seq<Glyph>)
    requires tok != "" && tok[0] != '{' && tok[|tok| - 1] == '}'
    requires p.Progress? && (p.open.None? || closing)
    ensures Steps(shape, p, Lex(tok) + ((if closing then [Close] else []) + tail)) == Rejected
  {
    var inner := tok[..|tok| - 1];
    LexNoOpen(inner);
    if closing {
      LeftClose(tok, [Close] + tail);
      StepsAppend(shape, p, Lex(inner), [Close] + ([Close] + tail));
      StepsOne(shape, Steps(shape, p, Lex(inner)), Close, [Close] + tail);
      CloseOutside(shape, Step(shape, Steps(shape, p, Lex(inner)), Close), [], tail);
      assert [] + ([Close] + tail) == [Close] + tail;
    } else {
      assert [] + tail == tail;
      LeftClose(tok, tail);
      CloseOutside(shape, p, Lex(inner), tail);
    }
  }

  /** The words collected so far for one slot. */
  function SlotWords(p: Progress, i: nat): seq<string>
    requires p.Progress?
  {
    if i < |p.done| then Words(p.done[i])
    else if i == |p.done| && p.open.Some? then p.open.value
    else []
  }
}
