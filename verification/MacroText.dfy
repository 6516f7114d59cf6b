/** Macro code as text: every word that the simulator knows is printed as a line that
    reads back and assembles to the word. */
module MacroText {
  import opened Options
  import opened Words
  import opened Exprs
  import opened Fields
  import opened Registers
  import opened Tables
  import opened AsmSound
  import opened AsmComplete
  import Rewrite
  import opened Flatten
  import L = Lexer
  import P = PrintedText
  import Grammar
  import InsnText
  import opened TextRoundTrip
  import M = MacroMachine
  import D = MacroDecode
  import opened MacroAgree
  import opened MacroShown
  import MacroIsa

  // ---------------------------------------------------------------------
  // Tokens that are printed as one word each
  // ---------------------------------------------------------------------

  predicate FineExpr(e: Expr) { e.Num? || (e.Un? && e.uop == NegOp && e.e.Num?) || (e.Reg? && L.IsName(e.name)) }

  predicate Fine(item: Item) {
    match item
    case NameItem(name, isunk) => L.IsWord(name) && !isunk
    case ExprItem(e) => FineExpr(e)
    case _ => false
  }

  predicate AllFine(items: seq<Item>) { forall k :: 0 <= k < |items| ==> Fine(items[k]) }

  predicate GoodInsn(s: SInsn) { P.NamedSInsn(s) && Grammar.WholeSInsn(s, false) && P.SpacedOperands(s.operands) }

  lemma GoodExpr(e: Expr)
    requires FineExpr(e)
    ensures P.Named(e) && Grammar.Whole(e, false) && P.SpacedOperand(e)
  {
    hide L.IsName;
    if e.Un? {
      assert P.Named(e.e) && Grammar.Whole(e.e, false) && P.Spaced(e.e);
    }
  }

  lemma GoodMore(s: SInsn, item: Item)
    requires GoodInsn(s) && Fine(item)
    ensures item.NameItem? ==> GoodInsn(s.(mods := s.mods + [Modifier(item.name, item.isunk)]))
    ensures item.ExprItem? ==> GoodInsn(s.(operands := s.operands + [Operand(s.mods, [item.e])], mods := []))
  {
    hide L.IsWord, FineExpr, P.Named, Grammar.Whole, P.SpacedOperand;
    if item.ExprItem? {
      GoodExpr(item.e);
      GoodOperand(s, item.e);
    }
  }

  lemma GoodOperand(s: SInsn, e: Expr)
    requires GoodInsn(s) && P.Named(e) && Grammar.Whole(e, false) && P.SpacedOperand(e)
    ensures GoodInsn(s.(operands := s.operands + [Operand(s.mods, [e])], mods := []))
  {
    hide L.IsWord, P.Named, Grammar.Whole, P.SpacedOperand;
    var op := Operand(s.mods, [e]);
    assert P.NamedOperand(op) && Grammar.WholeOperand(op, false) && P.SpacedExprs(op.exprs);
  }

  /** The loop over names and operands takes them all. */
  lemma {:induction false} BodyOfFine(items: seq<Item>, rest: seq<Item>, s: SInsn) returns (t: SInsn)
    requires AllFine(items) && GoodInsn(s)
    ensures GoodInsn(t) && ParseBody(items + rest, s) == ParseBody(rest, t)
    decreases |items|
  {
    hide GoodInsn, Fine;
    if items == [] {
      assert items + rest == rest;
      t := s;
    } else {
      var item, all := items[0], items + rest;
      assert Fine(item);
      GoodMore(s, item);
      FineKind(item);
      assert all[0] == item && all[1..] == items[1..] + rest;
      t := BodyOfFine(items[1..], rest,
                      if item.NameItem? then s.(mods := s.mods + [Modifier(item.name, item.isunk)])
                      else s.(operands := s.operands + [Operand(s.mods, [item.e])], mods := []));
    }
  }

  lemma FineKind(item: Item)
    requires Fine(item)
    ensures item.NameItem? || item.ExprItem?
  {
  }

  /** What is between brackets, if anything. */
  datatype Nested = NoNested | Nested(name: string, items: seq<Item>)

  function Brackets(n: Nested): seq<Item> {
    if n.NoNested? then [] else [SeStart, NameItem(n.name, false)] + n.items + [SeEnd]
  }

  predicate FineNested(n: Nested) { n.Nested? ==> L.IsWord(n.name) && AllFine(n.items) }

  lemma BareInsn(name: string)
    requires L.IsWord(name)
    ensures GoodInsn(SInsn(name, false, [], []))
  {
  }

  lemma NestedParsed(n: Nested) returns (e: Expr)
    requires n.Nested? && FineNested(n)
    ensures ParseExpr(Brackets(n)) == Got(e, [])
    ensures P.Named(e) && Grammar.Whole(e, false) && P.SpacedOperand(e)
  {
    hide L.IsWord, AllFine, GoodInsn, P.Named, Grammar.Whole, P.SpacedOperand;
    var all := Brackets(n);
    BareInsn(n.name);
    var t := BodyOfFine(n.items, [SeEnd], SInsn(n.name, false, [], []));
    assert all[1..][1..] == n.items + [SeEnd] && all[1..][0] == NameItem(n.name, false);
    assert ParseBody([SeEnd], t) == Got(t, [SeEnd]);
    assert ParseSInsn(all[1..]) == Got(t, [SeEnd]);
    e := SInsnExpr(t);
    NestedGood(t);
  }

  lemma NestedGood(t: SInsn)
    requires GoodInsn(t)
    ensures P.Named(SInsnExpr(t)) && Grammar.Whole(SInsnExpr(t), false) && P.SpacedOperand(SInsnExpr(t))
  {
    hide P.NamedSInsn, Grammar.WholeSInsn, P.SpacedOperands;
  }

  lemma TailParsed(n: Nested, s: SInsn) returns (t: SInsn)
    requires FineNested(n) && GoodInsn(s)
    ensures GoodInsn(t) && ParseBody(Brackets(n), s) == Got(t, [])
  {
    hide GoodInsn, FineNested, P.Named, Grammar.Whole, P.SpacedOperand;
    if n.NoNested? {
      t := s;
    } else {
      var e := NestedParsed(n);
      t := s.(operands := s.operands + [Operand(s.mods, [e])], mods := []);
      GoodOperand(s, e);
      assert ParseBody([], t) == Got(t, []);
    }
  }

  /** A name, fine tokens and at most one pair of brackets make an instruction that can
      be printed and read. */
  lemma FineIsPrintable(name: string, items: seq<Item>, n: Nested, ws: bool)
    requires L.IsWord(name) && AllFine(items) && FineNested(n)
    ensures Printable([NameItem(name, false)] + items + Brackets(n), ws)
  {
    hide L.IsWord, AllFine, FineNested, Brackets;
    var all := [NameItem(name, false)] + items + Brackets(n);
    BareInsn(name);
    var s := BodyOfFine(items, Brackets(n), SInsn(name, false, [], []));
    var t := TailParsed(n, s);
    assert all[1..] == items + Brackets(n) && all[0] == NameItem(name, false);
    assert ParseSInsn(all) == Got(t, []);
    assert ParsePrefixes(all, []) == Got(SubInsn([], t), []);
    FinePlain(name, items, n);
    ReadableOne(t);
  }

  lemma ReadableOne(t: SInsn)
    requires GoodInsn(t)
    ensures var i := Insn([SubInsn([], t)]); InsnText.ReadableInsn(i) && !InsnText.InsnLeadsNeg(i)
  {
    hide P.NamedSInsn, Grammar.WholeSInsn, P.SpacedOperands;
    var one := SubInsn([], t);
    assert InsnText.GoodSub(one) && InsnText.SpacedSub(one);
  }

  lemma FinePlain(name: string, items: seq<Item>, n: Nested)
    requires AllFine(items) && FineNested(n)
    ensures PlainItems([NameItem(name, false)] + items + Brackets(n))
  {
    hide L.IsWord, L.IsName;
    forall k | 0 <= k < |items| ensures PlainItem(items[k]) {
      assert Fine(items[k]);
    }
    if n.Nested? {
      forall k | 0 <= k < |n.items| ensures PlainItem(n.items[k]) {
        assert Fine(n.items[k]);
      }
    }
  }

  // ---------------------------------------------------------------------
  // Cleaning up leaves them so
  // ---------------------------------------------------------------------

  /** What the disassembler of macro code gives: names, numbers, registers, and targets
      relative to the position. */
  predicate RawExpr(e: Expr) {
    e.Num? || (e.Reg? && L.IsName(e.name)) || (e.Bin? && e.op == AddOp && e.e1.Pos? && e.e2.Num?)
  }

  predicate Raw(item: Item) {
    match item
    case NameItem(name, isunk) => L.IsWord(name) && !isunk
    case ExprItem(e) => RawExpr(e)
    case _ => false
  }

  predicate AllRaw(items: seq<Item>) { forall k :: 0 <= k < |items| ==> Raw(items[k]) }

  predicate RawNested(n: Nested) { n.Nested? ==> L.IsWord(n.name) && AllRaw(n.items) }

  lemma ShownSign(v: Word, special: bool)
    ensures FineExpr(Rewrite.ShowSign(Num(v), special))
  {
  }

  lemma RawTidies(e: Expr, pos: Word, special: bool)
    requires RawExpr(e)
    ensures FineExpr(Rewrite.Tidy(e, pos, special))
  {
    if e.Reg? {
      assert Rewrite.Tidy(e, pos, special) == e;
    } else {
      hide Rewrite.Tidy, Rewrite.ShowSign, FineExpr, Eval;
      var env := Env(map[], map[], None);
      RawConstant(e);
      Rewrite.ConstantTidies(e, pos, special, env);
      ShownSign(Eval(e, Rewrite.At(env, pos)).value, special);
    }
  }

  lemma RawConstant(e: Expr)
    requires RawExpr(e) && !e.Reg?
    ensures Rewrite.Constant(e)
  {
    if e.Bin? {
      assert Rewrite.Constant(e.e1) && Rewrite.Constant(e.e2);
    }
  }

  lemma CleanedAt(items: seq<Item>, marked: seq<bool>, pos: Word, k: nat)
    requires |marked| == |items| && k < |items|
    ensures Raw(items[k]) ==> Fine(Cleaned(items, marked, pos)[k])
    ensures !items[k].ExprItem? ==> Cleaned(items, marked, pos)[k] == items[k]
  {
    hide L.IsWord, FineExpr, RawExpr, Rewrite.Tidy;
    if items[k].ExprItem? && Raw(items[k]) {
      RawTidies(items[k].e, pos, marked[k]);
    }
  }

  /** A run of raw tokens in the middle. */
  lemma CleanedRun(items: seq<Item>, marked: seq<bool>, pos: Word, at: nat, run: seq<Item>)
    requires |marked| == |items| && at + |run| <= |items| && items[at..at + |run|] == run && AllRaw(run)
    ensures AllFine(Cleaned(items, marked, pos)[at..at + |run|])
  {
    hide Raw, Fine, Cleaned;
    var part := Cleaned(items, marked, pos)[at..at + |run|];
    forall k | 0 <= k < |run| ensures Fine(part[k]) {
      assert Raw(run[k]) && run[k] == items[at + k];
      CleanedAt(items, marked, pos, at + k);
    }
  }

  lemma CleanedNested(items: seq<Item>, marked: seq<bool>, pos: Word, at: nat, n: Nested) returns (m: Nested)
    requires |marked| == |items| && at <= |items| && items[at..] == Brackets(n) && RawNested(n)
    ensures FineNested(m) && Cleaned(items, marked, pos)[at..] == Brackets(m)
  {
    hide L.IsWord, AllRaw, AllFine, Cleaned, Raw, Fine;
    var c := Cleaned(items, marked, pos);
    if n.NoNested? {
      m := n;
    } else {
      var len := |n.items|;
      assert items[at + 2..at + 2 + len] == items[at..][2..2 + len] == n.items;
      CleanedRun(items, marked, pos, at + 2, n.items);
      m := Nested(n.name, c[at + 2..at + 2 + len]);
      assert items[at] == items[at..][0] && items[at + 1] == items[at..][1] &&
             items[at + 2 + len] == items[at..][2 + len];
      CleanedAt(items, marked, pos, at);
      CleanedAt(items, marked, pos, at + 1);
      CleanedAt(items, marked, pos, at + 2 + len);
      assert c[at..] == [SeStart, NameItem(n.name, false)] + c[at + 2..at + 2 + len] + [SeEnd];
    }
  }

  lemma CleanedIsPrintable(name: string, raw: seq<Item>, n: Nested, marked: seq<bool>, pos: Word, ws: bool)
    requires L.IsWord(name) && AllRaw(raw) && RawNested(n)
    requires |marked| == |[NameItem(name, false)] + raw + Brackets(n)|
    ensures Printable(Cleaned([NameItem(name, false)] + raw + Brackets(n), marked, pos), ws)
  {
    hide L.IsWord, AllRaw, AllFine, RawNested, FineNested, Brackets, Printable, Cleaned;
    var items := [NameItem(name, false)] + raw + Brackets(n);
    var c, at := Cleaned(items, marked, pos), 1 + |raw|;
    CleanedAt(items, marked, pos, 0);
    assert items[1..at] == raw && items[at..] == Brackets(n);
    CleanedRun(items, marked, pos, 1, raw);
    var m := CleanedNested(items, marked, pos, at, n);
    FineIsPrintable(name, c[1..at], m, ws);
    assert c == [NameItem(name, false)] + c[1..at] + Brackets(m);
  }

  // ---------------------------------------------------------------------
  // The shape of macro code
  // ---------------------------------------------------------------------

  function SourceHead(src: M.Source): seq<Item> {
    match src
    case ImmSrc(imm) => [IntItem(imm)]
    case RegSrc(r2) => [RegItem(r2)]
    case _ => []
  }

  function SourceNested(src: M.Source): Nested {
    match src
    case RegReg(op, r2, r3) => Nested(OpName(op), [RegItem(r2), RegItem(r3)])
    case AddImm(r2, imm) => Nested("add", [RegItem(r2), IntItem(imm)])
    case ExtrInsrt(r2, r3, from, size, to) =>
      Nested("extrinsrt", [RegItem(r2), RegItem(r3), NatItem(from), NatItem(size), NatItem(to)])
    case ExtrShlDst(r2, r3, size, to) => Nested("extrshl", [RegItem(r3), RegItem(r2), NatItem(size), NatItem(to)])
    case ExtrShlSrc(r2, r3, from, size) => Nested("extrshl", [RegItem(r3), NatItem(from), NatItem(size), RegItem(r2)])
    case _ => NoNested
  }

  function BodyHead(b: M.Body): seq<Item> {
    match b
    case Compute(src, use, r1) => UseItems(use, r1) + SourceHead(src)
    case ReadAdd(r1, _, _) => [NameOf("read"), RegItem(r1)]
    case _ => BodyItems(b)
  }

  function BodyNested(b: M.Body): Nested {
    match b
    case Compute(src, _, _) => SourceNested(src)
    case ReadAdd(_, r2, imm) => Nested("add", [RegItem(r2), IntItem(imm)])
    case _ => NoNested
  }

  lemma SourceSplit(src: M.Source)
    ensures SourceItems(src) == SourceHead(src) + Brackets(SourceNested(src))
  {
    hide RegItem, IntItem, NatItem, OpName;
  }

  lemma BodySplit(b: M.Body)
    ensures BodyItems(b) == BodyHead(b) + Brackets(BodyNested(b))
  {
    hide RegItem, IntItem, NatItem, OpName, UseItems, SourceItems, SourceHead, SourceNested, TargetItem, AnnulItems,
         Brackets;
    BracketsAre(BodyNested(b));
    if b.Compute? {
      SourceSplit(b.src);
    }
  }

  lemma BracketsAre(n: Nested)
    ensures n.NoNested? ==> Brackets(n) == []
    ensures n.Nested? && |n.items| == 2 ==> Brackets(n) == [SeStart, NameOf(n.name), n.items[0], n.items[1], SeEnd]
  {
  }

  lemma {:induction false} DecParts(n: nat)
    ensures forall c <- Dec(n) :: L.IsPart(c)
  {
  }

  lemma RegisterRaw(r: nat)
    ensures Raw(RegItem(r))
  {
    if r > 0 {
      hide Dec;
      DecParts(r);
      var name := "r" + Dec(r);
      assert name[0] == 'r';
    }
  }

  lemma NumberRaw(n: int)
    ensures Raw(IntItem(n)) && Raw(TargetItem(n)) && (n >= 0 ==> Raw(NatItem(n)))
  {
    hide FromNat;
  }

  lemma NameRaw(name: string)
    requires L.IsWord(name)
    ensures Raw(NameOf(name))
  {
  }

  lemma Words1()
    ensures L.IsWord("add") && L.IsWord("adc") && L.IsWord("sub") && L.IsWord("sbb") && L.IsWord("xor")
    ensures L.IsWord("or") && L.IsWord("and") && L.IsWord("andn") && L.IsWord("nand") && L.IsWord("extrinsrt")
    ensures L.IsWord("extrshl")
  {
  }

  lemma Words2()
    ensures L.IsWord("parm") && L.IsWord("ign") && L.IsWord("mov") && L.IsWord("maddr") && L.IsWord("send")
    ensures L.IsWord("parmsend") && L.IsWord("maddrsend")
  {
  }

  lemma Words3()
    ensures L.IsWord("exit") && L.IsWord("annul") && L.IsWord("read") && L.IsWord("nop")
    ensures L.IsWord("bra") && L.IsWord("braz") && L.IsWord("branz")
  {
  }

  lemma SourceRaw(src: M.Source)
    ensures AllRaw(SourceHead(src)) && RawNested(SourceNested(src))
  {
    hide Raw, RegItem, IntItem, NatItem, TargetItem, L.IsWord;
    Words1();
    AllNumbersRaw();
  }

  lemma AllNumbersRaw()
    ensures forall r :: Raw(RegItem(r))
    ensures forall n :: Raw(IntItem(n))
    ensures forall n :: Raw(TargetItem(n))
    ensures forall n :: Raw(NatItem(n))
  {
    hide Raw, RegItem, IntItem, NatItem, TargetItem;
    forall r: nat ensures Raw(RegItem(r)) {
      RegisterRaw(r);
    }
    forall n: int ensures Raw(IntItem(n)) && Raw(TargetItem(n)) {
      NumberRaw(n);
    }
    forall n: nat ensures Raw(NatItem(n)) {
      NumberRaw(n);
    }
  }

  /** Every way to use a result starts with a name. */
  lemma UseRaw(use: M.Use, r1: nat)
    ensures AllRaw(UseItems(use, r1)) && UseItems(use, r1) != [] && UseItems(use, r1)[0].NameItem?
  {
    hide L.IsWord, RegItem, RawExpr;
    Words2();
    RegisterRaw(r1);
  }

  lemma BodyRaw(b: M.Body)
    requires !b.Unknown?
    ensures AllRaw(BodyHead(b)) && RawNested(BodyNested(b)) && BodyHead(b) != [] && BodyHead(b)[0].NameItem?
  {
    hide L.IsWord, RegItem, IntItem, NatItem, TargetItem, RawExpr, UseItems, SourceHead, SourceNested, AllRaw;
    Words1();
    Words2();
    Words3();
    AllNumbersRaw();
    if b.Compute? {
      UseRaw(b.use, b.r1);
      SourceRaw(b.src);
      JoinRaw(UseItems(b.use, b.r1), SourceHead(b.src));
    } else {
      OtherRaw(b);
    }
  }

  lemma JoinRaw(a: seq<Item>, b: seq<Item>)
    requires AllRaw(a) && AllRaw(b)
    ensures AllRaw(a + b)
  {
  }

  lemma OtherRaw(b: M.Body)
    requires !b.Unknown? && !b.Compute?
    ensures AllRaw(BodyHead(b)) && RawNested(BodyNested(b)) && BodyHead(b) != [] && BodyHead(b)[0].NameItem?
  {
    hide L.IsWord, RegItem, IntItem, NatItem, TargetItem, RawExpr;
    Words1();
    Words2();
    Words3();
    AllNumbersRaw();
  }

  /** What is shown is one name, raw tokens, and at most one pair of brackets. */
  lemma ShownSplit(i: M.Instr) returns (name: string, raw: seq<Item>, n: Nested)
    requires !i.body.Unknown?
    ensures L.IsWord(name) && AllRaw(raw) && RawNested(n)
    ensures Shown(i) == [NameItem(name, false)] + raw + Brackets(n)
  {
    hide L.IsWord, RawNested, Brackets, BodyItems, BodyHead, BodyNested, RawExpr;
    BodyRaw(i.body);
    BodySplit(i.body);
    Words3();
    var all := if !i.exit then BodyHead(i.body)
               else if i.body.Nop? then [NameOf("exit")]
               else [NameOf("exit")] + BodyHead(i.body);
    n := if i.exit && i.body.Nop? then NoNested else BodyNested(i.body);
    BracketsAre(NoNested);
    NoneRaw();
    assert AllRaw([NameOf("exit")]);
    JoinRaw([NameOf("exit")], BodyHead(i.body));
    assert Raw(all[0]);
    name, raw := all[0].name, all[1..];
    assert all == [NameItem(name, false)] + raw && Shown(i) == all + Brackets(n);
  }

  lemma NoneRaw()
    ensures RawNested(NoNested)
  {
  }

  function MacroItems(x: Code, vi: VarInfo): seq<Item> { DisTab(MacroIsa.Root(), x, vi).items }

  /** The candidates for a line of macro code. */
  function MacroCandidates(text: string, ws: bool, vi: VarInfo): seq<Match> {
    AssembleText(MacroIsa.Root(), text, ws, vi)
  }

  /** The encoding is one word long, relocates at the position, and fixes only bits of
      the opcode. */
  ghost predicate OneWordOf(mt: Match, x: Code, pos: Word) {
    && GoodMatch(mt) && Satisfies(x, mt, pos, map[]) && mt.oplen == 1
    && Resolve(mt, pos, map[]).Fits? && Agrees(x, Resolve(mt, pos, map[]).a, Resolve(mt, pos, map[]).m)
  }

  /** Every macro word that the simulator knows is printed, whatever is marked and wherever
      the text stands, as a line that reads back and assembles, as one candidate, to the
      word. */
  lemma MacroTextRoundTrip(x: Code, c: bv32, marked: seq<bool>, ws: bool, vi: VarInfo, pos: Word) returns (mt: Match)
    requires LowHalf(x, c) && !D.Decode(c).body.Unknown? && |marked| == |MacroItems(x, vi)|
    ensures var text := TextOf(Cleaned(MacroItems(x, vi), marked, pos));
            text.Some? && mt in MacroCandidates(text.value, ws, vi)
    ensures OneWordOf(mt, x, pos)
  {
    hide LowHalf, D.Decode, DisTab, DoAs, Resolve, Printable, AssembleText, Shown, MacroIsa.Root;
    hide L.IsWord, AllRaw, RawNested, Brackets;
    DisassemblyShows(x, c, vi);
    var name, raw, n := ShownSplit(D.Decode(c));
    var printed := Cleaned(MacroItems(x, vi), marked, pos);
    RawKnown(name, raw, n);
    CleanedIsPrintable(name, raw, n, marked, pos, ws);
    mt := MacroIsa.MacroPrintedRoundTrip(x, marked, vi, pos);
    TextAssembles(MacroIsa.Root(), printed, ws, vi);
    HasText(printed, ws);
  }

  lemma HasText(items: seq<Item>, ws: bool)
    requires Printable(items, ws)
    ensures TextOf(items).Some?
  {
  }

  lemma RawKnown(name: string, raw: seq<Item>, n: Nested)
    requires AllRaw(raw) && RawNested(n)
    ensures Known([NameItem(name, false)] + raw + Brackets(n))
  {
    hide L.IsWord, RawExpr;
    forall k | 0 <= k < |raw| ensures raw[k].NameItem? ==> !raw[k].isunk {
      assert Raw(raw[k]);
    }
    if n.Nested? {
      forall k | 0 <= k < |n.items| ensures n.items[k].NameItem? ==> !n.items[k].isunk {
        assert Raw(n.items[k]);
      }
    }
  }

  /** The disassembler knows a word exactly when the simulator does. */
  lemma KnownIffSimulated(x: Code, c: bv32, vi: VarInfo)
    requires LowHalf(x, c)
    ensures Known(MacroItems(x, vi)) <==> !D.Decode(c).body.Unknown?
  {
    hide LowHalf, D.Decode, DisTab, Shown, L.IsWord, AllRaw, RawNested, Brackets, MacroIsa.Root;
    if D.Decode(c).body.Unknown? {
      UnknownShown(x, c, vi);
    } else {
      DisassemblyShows(x, c, vi);
      var name, raw, n := ShownSplit(D.Decode(c));
      RawKnown(name, raw, n);
    }
  }
}
