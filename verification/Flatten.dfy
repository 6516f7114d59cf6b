/** Instructions as token lists: the flattening done before assembly
    (`convert_insn`) and the parser that turns a disassembled token list back into an
    instruction (`dis_parse_insn`). */
module Flatten {
  import opened Options
  import opened Exprs
  import opened Tables

  // ---------------------------------------------------------------------
  // Flattening
  // ---------------------------------------------------------------------

  /** Modifiers and instruction names lose the mark of an unknown name. */
  function FlatMods(mods: seq<Modifier>): (r: seq<Item>)
    ensures |r| == |mods|
  {
    if mods == [] then [] else [NameItem(mods[0].name, false)] + FlatMods(mods[1..])
  }

  function FlatExpr(e: Expr): (r: seq<Item>)
    ensures r != [] && !r[0].NameItem? && !r[0].SeEnd?
    decreases e
  {
    if e.SInsnExpr? then [SeStart] + FlatSInsn(e.insn) + [SeEnd] else [ExprItem(e)]
  }

  function FlatExprs(es: seq<Expr>): seq<Item>
    decreases es
  {
    if es == [] then [] else FlatExpr(es[0]) + FlatExprs(es[1..])
  }

  function FlatOperands(ops: seq<Operand>): seq<Item>
    decreases ops
  {
    if ops == [] then [] else FlatMods(ops[0].mods) + FlatExprs(ops[0].exprs) + FlatOperands(ops[1..])
  }

  function FlatSInsn(s: SInsn): (r: seq<Item>)
    ensures r != []
    decreases s
  {
    [NameItem(s.name, false)] + FlatOperands(s.operands) + FlatMods(s.mods)
  }

  function FlatSubInsn(s: SubInsn): seq<Item> {
    FlatExprs(s.prefs) + FlatSInsn(s.sinsn)
  }

  function FlatSubInsns(ss: seq<SubInsn>): seq<Item> {
    if ss == [] then [] else FlatSubInsn(ss[0]) + FlatSubInsns(ss[1..])
  }

  function FlatInsn(i: Insn): seq<Item> {
    FlatSubInsns(i.subinsns)
  }

  // ---------------------------------------------------------------------
  // Parsing
  // ---------------------------------------------------------------------

  /** A construct and the tokens after it; `Abort` is the source's `abort()`. */
  datatype Parsed<T> = Got(value: T, rest: seq<Item>) | Abort

  function ParseExpr(items: seq<Item>): (r: Parsed<Expr>)
    ensures r.Got? ==> |r.rest| < |items|
    decreases |items|, 1
  {
    if items == [] then Abort
    else if items[0].ExprItem? then Got(items[0].e, items[1..])
    else if !items[0].SeStart? then Abort
    else
      var s := ParseSInsn(items[1..]);
      if s.Got? && s.rest != [] && s.rest[0].SeEnd? then Got(SInsnExpr(s.value), s.rest[1..]) else Abort
  }

  function ParseSInsn(items: seq<Item>): (r: Parsed<SInsn>)
    ensures r.Got? ==> |r.rest| < |items|
    decreases |items|, 0
  {
    if items == [] || !items[0].NameItem? then Abort
    else ParseBody(items[1..], SInsn(items[0].name, items[0].isunk, [], []))
  }

  /** The loop of `dis_parse_sinsn`: the modifiers read so far are those of `s`. */
  function ParseBody(items: seq<Item>, s: SInsn): (r: Parsed<SInsn>)
    ensures r.Got? ==> |r.rest| <= |items|
    decreases |items|, 2
  {
    if items == [] || items[0].SeEnd? then Got(s, items)
    else if items[0].NameItem? then
      ParseBody(items[1..], s.(mods := s.mods + [Modifier(items[0].name, items[0].isunk)]))
    else
      var e := ParseExpr(items);
      if e.Abort? then Abort
      else ParseBody(e.rest, s.(operands := s.operands + [Operand(s.mods, [e.value])], mods := []))
  }

  /** The loop of `dis_parse_subinsn` over prefixes. */
  function ParsePrefixes(items: seq<Item>, prefs: seq<Expr>): (r: Parsed<SubInsn>)
    decreases |items|
  {
    if items != [] && items[0].NameItem? then
      var s := ParseSInsn(items);
      if s.Got? then Got(SubInsn(prefs, s.value), s.rest) else Abort
    else
      var e := ParseExpr(items);
      if e.Got? then ParsePrefixes(e.rest, prefs + [e.value]) else Abort
  }

  function ParseInsn(items: seq<Item>): Option<Insn> {
    var s := ParsePrefixes(items, []);
    if s.Got? && s.rest == [] then Some(Insn([s.value])) else None
  }

  // ---------------------------------------------------------------------
  // Which instructions and token lists survive the round trip
  // ---------------------------------------------------------------------

  predicate PlainMods(mods: seq<Modifier>) {
    forall i :: 0 <= i < |mods| ==> !mods[i].isunk
  }

  /** One expression per operand and no unknown names, at every level of nesting. */
  predicate Canonical(s: SInsn)
    decreases s
  {
    !s.isunk && PlainMods(s.mods) && CanonicalOperands(s.operands)
  }

  predicate CanonicalOperands(ops: seq<Operand>)
    decreases ops
  {
    ops == [] ||
    (PlainMods(ops[0].mods) && CanonicalExprs(ops[0].exprs) && |ops[0].exprs| == 1 && CanonicalOperands(ops[1..]))
  }

  predicate CanonicalExprs(es: seq<Expr>)
    decreases es
  {
    es == [] || (CanonicalExpr(es[0]) && CanonicalExprs(es[1..]))
  }

  predicate CanonicalExpr(e: Expr)
    decreases e
  {
    e.SInsnExpr? ==> Canonical(e.insn)
  }

  predicate CanonicalInsn(i: Insn) {
    |i.subinsns| == 1 && CanonicalExprs(i.subinsns[0].prefs) && Canonical(i.subinsns[0].sinsn)
  }

  /** No unknown name, and nested instructions only in brackets. */
  predicate PlainItem(item: Item) {
    match item
    case NameItem(_, isunk) => !isunk
    case ExprItem(e) => !e.SInsnExpr?
    case _ => true
  }

  predicate PlainItems(items: seq<Item>) {
    forall i :: 0 <= i < |items| ==> PlainItem(items[i])
  }

  // ---------------------------------------------------------------------
  // Parsing what was flattened
  // ---------------------------------------------------------------------

  predicate Stops(rest: seq<Item>) {
    rest == [] || rest[0].SeEnd?
  }

  lemma {:induction false} BodyMods(mods: seq<Modifier>, rest: seq<Item>, s: SInsn)
    requires PlainMods(mods)
    ensures ParseBody(FlatMods(mods) + rest, s) == ParseBody(rest, s.(mods := s.mods + mods))
    decreases |mods|
  {
    hide ParseBody, FlatMods;
    FlatModsFirst(mods);
    if mods == [] {
      assert FlatMods(mods) + rest == rest && s.mods + mods == s.mods;
    } else {
      var items := FlatMods(mods) + rest;
      FirstOff(NameItem(mods[0].name, false), FlatMods(mods[1..]), rest);
      ReadMod(items, s);
      BodyMods(mods[1..], rest, s.(mods := s.mods + [mods[0]]));
      MoveOver(s.mods, mods);
    }
  }

  lemma FlatModsFirst(mods: seq<Modifier>)
    ensures FlatMods(mods) == if mods == [] then [] else [NameItem(mods[0].name, false)] + FlatMods(mods[1..])
  {
  }

  lemma FirstOff<T>(x: T, s: seq<T>, t: seq<T>)
    ensures var all := [x] + s + t; all != [] && all[0] == x && all[1..] == s + t
  {
  }

  lemma MoveOver<T>(s: seq<T>, t: seq<T>)
    requires t != []
    ensures s + [t[0]] + t[1..] == s + t
  {
  }

  lemma ReadMod(items: seq<Item>, s: SInsn)
    requires items != [] && items[0].NameItem?
    ensures ParseBody(items, s) ==
            ParseBody(items[1..], s.(mods := s.mods + [Modifier(items[0].name, items[0].isunk)]))
  {
    hide ParseExpr;
  }

  lemma {:induction false} ExprBack(e: Expr, rest: seq<Item>)
    requires CanonicalExpr(e)
    ensures ParseExpr(FlatExpr(e) + rest) == Got(e, rest)
    decreases e, 0
  {
    hide ParseSInsn, FlatSInsn;
    var items := FlatExpr(e) + rest;
    if e.SInsnExpr? {
      assert items[1..] == FlatSInsn(e.insn) + ([SeEnd] + rest);
      SInsnBack(e.insn, [SeEnd] + rest);
      assert ([SeEnd] + rest)[1..] == rest;
    } else {
      assert items[1..] == rest;
    }
  }

  lemma {:induction false} SInsnBack(s: SInsn, rest: seq<Item>)
    requires Canonical(s) && Stops(rest)
    ensures ParseSInsn(FlatSInsn(s) + rest) == Got(s, rest)
    decreases s, 1
  {
    hide ParseBody, FlatMods, FlatOperands;
    var items := FlatSInsn(s) + rest;
    var tail := FlatOperands(s.operands) + (FlatMods(s.mods) + rest);
    assert items[1..] == tail;
    var bare := SInsn(s.name, false, [], []);
    OperandsBack(s.operands, FlatMods(s.mods) + rest, bare);
    BodyMods(s.mods, rest, bare.(operands := s.operands));
    BodyEnd(s, rest);
    assert [] + s.operands == s.operands && [] + s.mods == s.mods;
  }

  lemma BodyEnd(s: SInsn, rest: seq<Item>)
    requires Stops(rest)
    ensures ParseBody(rest, s) == Got(s, rest)
  {
  }

  lemma {:induction false} OperandsBack(ops: seq<Operand>, rest: seq<Item>, s: SInsn)
    requires CanonicalOperands(ops) && s.mods == []
    ensures ParseBody(FlatOperands(ops) + rest, s) == ParseBody(rest, s.(operands := s.operands + ops))
    decreases ops, 0
  {
    hide ParseBody, FlatMods, FlatExpr;
    if ops == [] {
      assert FlatOperands(ops) + rest == rest && s.operands + ops == s.operands;
    } else {
      var op := ops[0];
      var e := op.exprs[0];
      var more := FlatOperands(ops[1..]) + rest;
      assert op.exprs == [e];
      assert FlatExprs(op.exprs) == FlatExpr(e) by {
        assert op.exprs[1..] == [];
      }
      assert FlatOperands(ops) + rest == FlatMods(op.mods) + (FlatExpr(e) + more);
      BodyMods(op.mods, FlatExpr(e) + more, s);
      assert [] + op.mods == op.mods;
      OperandBack(op, e, more, s.(mods := op.mods));
      var t := s.(operands := s.operands + [op]);
      OperandsBack(ops[1..], rest, t);
      assert s.operands + ops == s.operands + [op] + ops[1..];
    }
  }

  lemma {:induction false} OperandBack(op: Operand, e: Expr, rest: seq<Item>, s: SInsn)
    requires op == Operand(s.mods, [e]) && CanonicalExpr(e)
    ensures ParseBody(FlatExpr(e) + rest, s) == ParseBody(rest, s.(operands := s.operands + [op], mods := []))
    decreases e, 1
  {
    hide ParseExpr, FlatExpr;
    ExprBack(e, rest);
    var items := FlatExpr(e) + rest;
    assert items[0] == FlatExpr(e)[0];
  }

  lemma {:induction false} PrefixesBack(es: seq<Expr>, rest: seq<Item>, prefs: seq<Expr>)
    requires CanonicalExprs(es)
    ensures ParsePrefixes(FlatExprs(es) + rest, prefs) == ParsePrefixes(rest, prefs + es)
    decreases |es|
  {
    hide ParseExpr, FlatExpr;
    if es == [] {
      assert FlatExprs(es) + rest == rest && prefs + es == prefs;
    } else {
      var items := FlatExprs(es) + rest;
      assert items == FlatExpr(es[0]) + (FlatExprs(es[1..]) + rest);
      ExprBack(es[0], FlatExprs(es[1..]) + rest);
      assert items[0] == FlatExpr(es[0])[0];
      PrefixesBack(es[1..], rest, prefs + [es[0]]);
      assert prefs + es == prefs + [es[0]] + es[1..];
    }
  }

  lemma InsnBack(i: Insn)
    requires CanonicalInsn(i)
    ensures ParseInsn(FlatInsn(i)) == Some(i)
  {
    hide ParseSInsn, FlatSInsn, FlatExprs;
    var s := i.subinsns[0];
    var flat := FlatSInsn(s.sinsn);
    assert i.subinsns[1..] == [];
    assert FlatSubInsns(i.subinsns) == FlatSubInsn(s) + [];
    assert FlatInsn(i) == FlatExprs(s.prefs) + flat;
    PrefixesBack(s.prefs, flat, []);
    assert [] + s.prefs == s.prefs && flat + [] == flat;
    SInsnBack(s.sinsn, []);
    NameFirst(s.sinsn);
    assert Insn([s]) == i;
  }

  lemma NameFirst(s: SInsn)
    ensures FlatSInsn(s)[0] == NameItem(s.name, false)
  {
  }

  // ---------------------------------------------------------------------
  // Flattening what was parsed
  // ---------------------------------------------------------------------

  lemma {:induction false} ModsSplit(a: seq<Modifier>, m: Modifier)
    ensures FlatMods(a + [m]) == FlatMods(a) + [NameItem(m.name, false)]
  {
    if a == [] {
      assert a + [m] == [m] && [m][1..] == [];
    } else {
      assert (a + [m])[1..] == a[1..] + [m];
      ModsSplit(a[1..], m);
    }
  }

  lemma {:induction false} OperandsSplit(a: seq<Operand>, op: Operand)
    ensures FlatOperands(a + [op]) == FlatOperands(a) + FlatMods(op.mods) + FlatExprs(op.exprs)
  {
    hide FlatMods, FlatExprs;
    if a == [] {
      assert a + [op] == [op] && [op][1..] == [];
    } else {
      assert (a + [op])[1..] == a[1..] + [op];
      OperandsSplit(a[1..], op);
    }
  }

  lemma {:induction false} ExprsSplit(a: seq<Expr>, e: Expr)
    ensures FlatExprs(a + [e]) == FlatExprs(a) + FlatExpr(e)
  {
    hide FlatExpr;
    if a == [] {
      assert a + [e] == [e] && [e][1..] == [];
    } else {
      assert (a + [e])[1..] == a[1..] + [e];
      ExprsSplit(a[1..], e);
    }
  }

  lemma {:induction false} ExprForth(items: seq<Item>)
    requires PlainItems(items) && ParseExpr(items).Got?
    ensures var r := ParseExpr(items);
            items == FlatExpr(r.value) + r.rest && PlainItems(r.rest) && CanonicalExpr(r.value)
    decreases |items|, 1
  {
    if items[0].SeStart? {
      SInsnForth(items[1..]);
      var s := ParseSInsn(items[1..]);
      assert items == [SeStart] + items[1..] && s.rest == [SeEnd] + s.rest[1..];
      assert items == [SeStart] + FlatSInsn(s.value) + [SeEnd] + s.rest[1..];
    } else {
      assert items == [items[0]] + items[1..];
      assert PlainItem(items[0]);
    }
  }

  lemma {:induction false} SInsnForth(items: seq<Item>)
    requires PlainItems(items) && ParseSInsn(items).Got?
    ensures var r := ParseSInsn(items);
            items == FlatSInsn(r.value) + r.rest && PlainItems(r.rest) && Canonical(r.value) && Stops(r.rest)
    decreases |items|, 0
  {
    hide ParseBody;
    var bare := SInsn(items[0].name, items[0].isunk, [], []);
    assert PlainItem(items[0]);
    BodyForth(items[1..], bare);
    assert items == [items[0]] + items[1..];
    assert FlatSInsn(bare) == [items[0]];
  }

  lemma {:induction false} BodyForth(items: seq<Item>, s: SInsn)
    requires PlainItems(items) && Canonical(s) && ParseBody(items, s).Got?
    ensures var r := ParseBody(items, s);
            && FlatSInsn(s) + items == FlatSInsn(r.value) + r.rest
            && PlainItems(r.rest) && Canonical(r.value) && Stops(r.rest)
    decreases |items|, 2
  {
    if !Stops(items) {
      assert PlainItem(items[0]);
      if items[0].NameItem? {
        var t := s.(mods := s.mods + [Modifier(items[0].name, items[0].isunk)]);
        BodyForth(items[1..], t);
        ModStep(items, s, t);
      } else {
        ExprForth(items);
        var e := ParseExpr(items);
        var t := s.(operands := s.operands + [Operand(s.mods, [e.value])], mods := []);
        OperandStep(items, s, t, e.value, e.rest);
        BodyForth(e.rest, t);
      }
    }
  }

  lemma ModStep(items: seq<Item>, s: SInsn, t: SInsn)
    requires items != [] && items[0].NameItem? && PlainItem(items[0]) && Canonical(s)
    requires t == s.(mods := s.mods + [Modifier(items[0].name, items[0].isunk)])
    ensures FlatSInsn(s) + items == FlatSInsn(t) + items[1..] && Canonical(t)
  {
    hide FlatMods, FlatOperands, CanonicalOperands;
    ModsSplit(s.mods, Modifier(items[0].name, items[0].isunk));
    assert items == [items[0]] + items[1..];
  }

  lemma OperandStep(items: seq<Item>, s: SInsn, t: SInsn, e: Expr, rest: seq<Item>)
    requires Canonical(s) && items == FlatExpr(e) + rest && CanonicalExpr(e)
    requires t == s.(operands := s.operands + [Operand(s.mods, [e])], mods := [])
    ensures FlatSInsn(s) + items == FlatSInsn(t) + rest && Canonical(t)
  {
    hide FlatExpr, FlatOperands, CanonicalExpr;
    var op := Operand(s.mods, [e]);
    OperandsSplit(s.operands, op);
    OneExpr(e);
    CanonicalMore(s.operands, op);
    assert FlatMods([]) == [];
  }

  lemma OneExpr(e: Expr)
    ensures FlatExprs([e]) == FlatExpr(e) && (CanonicalExpr(e) ==> CanonicalExprs([e]))
  {
    hide FlatExpr, CanonicalExpr;
    assert [e][1..] == [];
  }

  lemma {:induction false} CanonicalMore(a: seq<Operand>, op: Operand)
    requires CanonicalOperands(a) && PlainMods(op.mods) && CanonicalExprs(op.exprs) && |op.exprs| == 1
    ensures CanonicalOperands(a + [op])
  {
    hide CanonicalExprs;
    if a == [] {
      assert a + [op] == [op] && [op][1..] == [];
    } else {
      assert (a + [op])[1..] == a[1..] + [op];
      CanonicalMore(a[1..], op);
    }
  }

  lemma {:induction false} PrefixesForth(items: seq<Item>, prefs: seq<Expr>)
    requires PlainItems(items) && CanonicalExprs(prefs) && ParsePrefixes(items, prefs).Got?
    ensures var r := ParsePrefixes(items, prefs);
            && FlatExprs(prefs) + items == FlatSubInsn(r.value) + r.rest
            && CanonicalExprs(r.value.prefs) && Canonical(r.value.sinsn)
    decreases |items|
  {
    hide ParseSInsn, ParseExpr, FlatSInsn, FlatExpr, CanonicalExpr, Canonical;
    if items != [] && items[0].NameItem? {
      SInsnForth(items);
    } else {
      ExprForth(items);
      var e := ParseExpr(items);
      ExprsSplit(prefs, e.value);
      PrefixMore(prefs, e.value);
      PrefixesForth(e.rest, prefs + [e.value]);
    }
  }

  lemma {:induction false} PrefixMore(a: seq<Expr>, e: Expr)
    requires CanonicalExprs(a) && CanonicalExpr(e)
    ensures CanonicalExprs(a + [e])
  {
    hide CanonicalExpr;
    if a == [] {
      assert a + [e] == [e] && [e][1..] == [];
    } else {
      assert (a + [e])[1..] == a[1..] + [e];
      PrefixMore(a[1..], e);
    }
  }

  lemma InsnForth(items: seq<Item>)
    requires PlainItems(items) && ParseInsn(items).Some?
    ensures var i := ParseInsn(items).value;
            FlatInsn(i) == items && CanonicalInsn(i)
  {
    hide ParsePrefixes, FlatSubInsn;
    PrefixesForth(items, []);
    var s := ParsePrefixes(items, []).value;
    assert FlatExprs([]) + items == items && FlatSubInsn(s) + [] == FlatSubInsn(s);
    assert [s][1..] == [] && FlatSubInsns([s]) == FlatSubInsn(s) + FlatSubInsns([]);
  }

  // ---------------------------------------------------------------------
  // Flattened instructions are plain
  // ---------------------------------------------------------------------

  lemma {:induction false} PlainFlatMods(mods: seq<Modifier>)
    ensures PlainItems(FlatMods(mods))
  {
    if mods != [] {
      PlainFlatMods(mods[1..]);
    }
  }

  lemma {:induction false} PlainFlatExpr(e: Expr)
    ensures PlainItems(FlatExpr(e))
    decreases e
  {
    if e.SInsnExpr? {
      PlainFlatSInsn(e.insn);
    }
  }

  lemma {:induction false} PlainFlatExprs(es: seq<Expr>)
    ensures PlainItems(FlatExprs(es))
    decreases es
  {
    if es != [] {
      PlainFlatExpr(es[0]);
      PlainFlatExprs(es[1..]);
    }
  }

  lemma {:induction false} PlainFlatOperands(ops: seq<Operand>)
    ensures PlainItems(FlatOperands(ops))
    decreases ops
  {
    if ops != [] {
      PlainFlatMods(ops[0].mods);
      PlainFlatExprs(ops[0].exprs);
      PlainFlatOperands(ops[1..]);
    }
  }

  lemma {:induction false} PlainFlatSInsn(s: SInsn)
    ensures PlainItems(FlatSInsn(s))
    decreases s
  {
    PlainFlatOperands(s.operands);
    PlainFlatMods(s.mods);
  }

  lemma {:induction false} PlainFlatSubInsns(ss: seq<SubInsn>)
    ensures PlainItems(FlatSubInsns(ss))
  {
    if ss != [] {
      PlainFlatExprs(ss[0].prefs);
      PlainFlatSInsn(ss[0].sinsn);
      PlainFlatSubInsns(ss[1..]);
    }
  }

  // ---------------------------------------------------------------------
  // The two round trips
  // ---------------------------------------------------------------------

  /** An instruction comes back from its tokens exactly when it has one
      sub-instruction, one expression per operand and no unknown names. */
  lemma FlattenThenParse(i: Insn)
    ensures ParseInsn(FlatInsn(i)) == Some(i) <==> CanonicalInsn(i)
  {
    hide ParseInsn, FlatSubInsns, CanonicalInsn;
    if CanonicalInsn(i) {
      InsnBack(i);
    }
    if ParseInsn(FlatInsn(i)) == Some(i) {
      PlainFlatSubInsns(i.subinsns);
      InsnForth(FlatInsn(i));
    }
  }

  /** A token list that the parser accepts comes back exactly when it has no unknown
      name and no nested instruction outside brackets. */
  lemma ParseThenFlatten(items: seq<Item>)
    requires ParseInsn(items).Some?
    ensures FlatInsn(ParseInsn(items).value) == items <==> PlainItems(items)
  {
    hide ParseInsn, FlatSubInsns;
    if PlainItems(items) {
      InsnForth(items);
    } else {
      PlainFlatSubInsns(ParseInsn(items).value.subinsns);
    }
  }
}
