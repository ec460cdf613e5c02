/** Statement bodies from text to patched policy: parse_pattern_1 to parse_pattern_5 of
    jni/magiskpolicy/magiskpolicy.c. */
module Patcher {
  import opened Wrappers
  import opened PolicyModel
  import opened Ioctl
  import opened RangeText
  import opened StatementSyntax
  import opened CStrings
  import opened StatementParser
  import opened PolicyRuns
  import PolicyDb

  method ReadNames(buf: array<char>, ptrs: seq<Option<nat>>, ghost ws: seq<string>) returns (ns: seq<Name>)
    requires Points(buf[..], ptrs, ws, buf.Length)
    ensures ns == NamesOf(ws)
  {
    ns := [];
    for i := 0 to |ptrs|
      invariant ns == NamesOf(ws)[..i]
    {
      assert PointsTo(buf[..], ptrs[i], ws[i], buf.Length);
      var n: Name := None;
      if ptrs[i].Some? {
        var s := ReadString(buf, ptrs[i].value, ws[i]);
        n := Some(s);
      }
      assert n == NamesOf(ws)[i];
      ns := ns + [n];
    }
  }

  /** allow, deny, auditallow and auditdeny: a body is rejected and changes nothing, or it has the
      reading `items`, and the policy becomes the meaning of that reading. */
  method ParsePattern1(db: PolicyDb.Db, a: Action, buf: array<char>, start: nat, ghost text: string) returns (ok: bool)
    requires CString(buf[..], start, text)
    modifies db, buf
    ensures ok <==> Parse(PATTERN1, Glyphs(text)).Some?
    ensures !ok ==> db.View() == old(db.View())
    ensures ok ==>
      var items := Parse(PATTERN1, Glyphs(text)).value;
      db.View() == Meaning(old(db.View()), a, NamesOf(Words(items[0])), NamesOf(Words(items[1])),
                           NameOf(items[2].word), NamesOf(Words(items[3])))
  {
    var slots;
    ok, slots := ParseSlots(buf, start, PATTERN1, text);
    if !ok { return; }
    ghost var items := Parse(PATTERN1, Glyphs(text)).value;
    ParseExact(PATTERN1, Glyphs(text), items);
    assert PATTERN1[2] == WordSlot && items[2].Bare?;
    var ss := ReadNames(buf, slots[0], Words(items[0]));
    var ts := ReadNames(buf, slots[1], Words(items[1]));
    var cs := ReadNames(buf, slots[2], Words(items[2]));
    var qs := ReadNames(buf, slots[3], Words(items[3]));
    db.ApplyStatement(a, ss, ts, cs[0], qs);
  }

  /** allowxperm, auditallowxperm and dontauditxperm.  `junk` is what the variables hold that sscanf should set
      but does not; the word before the range is not looked at. */
  method ParsePattern5(db: PolicyDb.Db, kind: XKind, buf: array<char>, start: nat, junk: Range,
                       ghost text: string)
    returns (ok: bool)
    requires CString(buf[..], start, text)
    modifies db, buf
    ensures ok <==> Parse(PATTERN5, Glyphs(text)).Some?
    ensures !ok ==> db.View() == old(db.View())
    ensures ok ==>
      var items := Parse(PATTERN5, Glyphs(text)).value;
      var r := if NameOf(items[4].word).None? then FULL_RANGE else Decode(items[4].word, junk);
      db.View() == XMeaning(old(db.View()), kind, NamesOf(Words(items[0])), NamesOf(Words(items[1])),
                            NamesOf(Words(items[2])), r.low, r.high)
  {
    var slots;
    ok, slots := ParseSlots(buf, start, PATTERN5, text);
    if !ok { return; }
    ghost var items := Parse(PATTERN5, Glyphs(text)).value;
    ParseExact(PATTERN5, Glyphs(text), items);
    assert PATTERN5[4] == WordSlot && items[4].Bare?;
    var ss := ReadNames(buf, slots[0], Words(items[0]));
    var ts := ReadNames(buf, slots[1], Words(items[1]));
    var cs := ReadNames(buf, slots[2], Words(items[2]));
    var rs := ReadNames(buf, slots[4], Words(items[4]));
    var range := if rs[0].None? then None else Some(Decode(rs[0].value, junk));
    db.ApplyXStatement(kind, ss, ts, cs, range);
  }

  function AttrRow(x: string, attrs: seq<string>): seq<Command> {
    seq(|attrs|, j requires 0 <= j < |attrs| => AttrAddCmd(x, attrs[j]))
  }

  /** One attradd per type and attribute, in the order of the loops. */
  function AttrCommands(xs: seq<string>, attrs: seq<string>): seq<Command> {
    if xs == [] then [] else AttrCommands(xs[..|xs| - 1], attrs) + AttrRow(xs[|xs| - 1], attrs)
  }

  /** Every listed pair occurs, and nothing else. */
  lemma {:induction false} AttrCommandsAre(xs: seq<string>, attrs: seq<string>, cmd: Command)
    ensures cmd in AttrCommands(xs, attrs) <==> cmd.AttrAddCmd? && cmd.x in xs && cmd.attr in attrs
  {
    if xs != [] {
      var init, x := xs[..|xs| - 1], xs[|xs| - 1];
      AttrCommandsAre(init, attrs, cmd);
      assert xs == init + [x];
      RowIs(x, attrs, cmd);
    }
  }

  lemma RowIs(x: string, attrs: seq<string>, cmd: Command)
    ensures cmd in AttrRow(x, attrs) <==> cmd.AttrAddCmd? && cmd.x == x && cmd.attr in attrs
  {
    if cmd.AttrAddCmd? && cmd.x == x && cmd.attr in attrs {
      var j :| 0 <= j < |attrs| && attrs[j] == cmd.attr;
      assert AttrRow(x, attrs)[j] == cmd;
    }
  }

  /** Some listed name is the type with bit `i`, and some listed one the attribute with bit `j`. */
  ghost predicate ListsBit(p: Policy, xs: seq<string>, i: nat) {
    exists x :: x in xs && x in p.types && p.types[x].value == i + 1
  }

  ghost predicate ListsAttribute(p: Policy, attrs: seq<string>, j: nat) {
    exists a :: a in attrs && a in p.types && p.types[a].isAttribute && p.types[a].value == j + 1
  }

  /** An attradd statement, bit by bit: every listed type has every listed attribute on top of its own, every
      listed attribute has the listed types as members, and no other bit moves. */
  lemma MeaningOfAttrStatement(p: Policy, xs: seq<string>, attrs: seq<string>, i: nat, j: nat)
    requires InRange(p) && i < p.nprim && j < p.nprim
    ensures var q := Run(p, AttrCommands(xs, attrs));
      && q == p.(typeAttr := q.typeAttr, attrType := q.attrType, constraints := q.constraints)
      && (j in q.typeAttr[i] <==> j in p.typeAttr[i] || (ListsBit(p, xs, i) && ListsAttribute(p, attrs, j)))
      && (i in q.attrType[j] <==> i in p.attrType[j] || (ListsBit(p, xs, i) && ListsAttribute(p, attrs, j)))
  {
    var cmds := AttrCommands(xs, attrs);
    forall cmd ensures cmd in cmds <==> cmd.AttrAddCmd? && cmd.x in xs && cmd.attr in attrs {
      AttrCommandsAre(xs, attrs, cmd);
    }
    AttrRunRows(p, cmds, i, j);
    if ListsBit(p, xs, i) && ListsAttribute(p, attrs, j) {
      var x :| x in xs && x in p.types && p.types[x].value == i + 1;
      var a :| a in attrs && a in p.types && p.types[a].isAttribute && p.types[a].value == j + 1;
      assert AttrAddCmd(x, a) in cmds && Joins(p, AttrAddCmd(x, a), i, j);
    }
    if SomeJoins(p, cmds, i, j) {
      var cmd :| cmd in cmds && Joins(p, cmd, i, j);
      assert cmd.x in xs && cmd.attr in attrs;
    }
  }

  /** attradd: every listed type joins every listed attribute.  The code has no use for `*` here:
      it would look up a NULL name. */
  method ParsePattern2(db: PolicyDb.Db, buf: array<char>, start: nat, ghost text: string) returns (ok: bool)
    requires CString(buf[..], start, text) && InRange(db.View())
    requires Parse(PATTERN2, Glyphs(text)).Some? ==>
      forall i, w :: 0 <= i < 2 && w in Words(Parse(PATTERN2, Glyphs(text)).value[i]) ==> NameOf(w).Some?
    modifies db, buf
    ensures ok <==> Parse(PATTERN2, Glyphs(text)).Some?
    ensures !ok ==> db.View() == old(db.View())
    ensures InRange(db.View())
    ensures ok ==>
      var items := Parse(PATTERN2, Glyphs(text)).value;
      db.View() == Run(old(db.View()), AttrCommands(Words(items[0]), Words(items[1])))
  {
    var slots;
    ok, slots := ParseSlots(buf, start, PATTERN2, text);
    if !ok { return; }
    ghost var items := Parse(PATTERN2, Glyphs(text)).value;
    ghost var xs, attrs := Words(items[0]), Words(items[1]);
    var types := ReadPlain(buf, slots[0], xs);
    var attributes := ReadPlain(buf, slots[1], attrs);
    AddAll(db, types, attributes);
  }

  /** Pointers none of which is NULL. */
  method ReadPlain(buf: array<char>, ptrs: seq<Option<nat>>, ghost ws: seq<string>) returns (words: seq<string>)
    requires Points(buf[..], ptrs, ws, buf.Length) && forall w :: w in ws ==> NameOf(w).Some?
    ensures words == ws
  {
    words := [];
    for i := 0 to |ptrs|
      invariant words == ws[..i]
    {
      assert ws[i] in ws && PointsTo(buf[..], ptrs[i], ws[i], buf.Length);
      var s := ReadString(buf, ptrs[i].value, ws[i]);
      words := words + [s];
    }
  }

  /** The nested loops of parse_pattern_2. */
  method AddAll(db: PolicyDb.Db, xs: seq<string>, attrs: seq<string>)
    requires InRange(db.View())
    modifies db
    ensures InRange(db.View()) && db.View() == Run(old(db.View()), AttrCommands(xs, attrs))
  {
    ghost var p := db.View();
    for i := 0 to |xs|
      invariant InRange(db.View()) && db.View() == Run(p, AttrCommands(xs[..i], attrs))
    {
      RunAppend(p, AttrCommands(xs[..i], attrs), AttrRow(xs[i], attrs));
      assert xs[..i + 1][..i] == xs[..i];
      Execute(db, AttrRow(xs[i], attrs));
    }
    assert xs[..|xs|] == xs;
  }

  // ------------------------------------------------------------------ lists of types

  datatype NameAction = Creating | Permitting | Enforcing

  /** What create, permissive and enforce do to one listed name.  create has no use for `*`. */
  function NameCommand(a: NameAction, n: Name): Command
    requires a.Creating? ==> n.Some?
  {
    match a
    case Creating => CreateCmd(n.value)
    case Permitting => StateCmd(n, true)
    case Enforcing => StateCmd(n, false)
  }

  predicate Nameable(a: NameAction, ws: seq<string>) { a.Creating? ==> forall w :: w in ws ==> NameOf(w).Some? }

  function NameCommands(a: NameAction, ws: seq<string>): seq<Command>
    requires Nameable(a, ws)
  {
    seq(|ws|, i requires 0 <= i < |ws| => assert ws[i] in ws; NameCommand(a, NameOf(ws[i])))
  }

  /** create, permissive and enforce: brackets count as blanks, and nothing is ever rejected. */
  method ParsePattern3(db: PolicyDb.Db, a: NameAction, buf: array<char>, start: nat, ghost text: string)
    requires CString(buf[..], start, text) && InRange(db.View()) && Nameable(a, Tokens(BRACKETS, text))
    modifies db, buf
    ensures InRange(db.View())
    ensures db.View() == Run(old(db.View()), NameCommands(a, Tokens(BRACKETS, text)))
  {
    var ptrs := CollectWords(buf, BRACKETS, start, text);
    var words := ReadWords(buf, ptrs, Tokens(BRACKETS, text));
    Execute(db, NameCommands(a, words));
  }

  /** typetrans: four words.  A fifth one, a file name, is not modelled. */
  method ParsePattern4(db: PolicyDb.Db, buf: array<char>, start: nat, ghost text: string) returns (ok: bool)
    requires CString(buf[..], start, text) && |Tokens(BLANK, text)| != 5
    modifies db, buf
    ensures var ws := Tokens(BLANK, text);
      && (ok <==> |ws| == 4)
      && db.View() == if ok then AddTransition(old(db.View()), ws[0], ws[1], ws[2], ws[3]) else old(db.View())
  {
    var ptrs := CollectWords(buf, BLANK, start, text);
    var words := ReadWords(buf, ptrs, Tokens(BLANK, text));
    ok := 4 <= |words| <= 5;
    if ok {
      var _ := db.AddTypeTransition(words[0], words[1], words[2], words[3]);
    }
  }
}
