/** The rewriting routines as they are written: recursive procedures that
    overwrite the nodes of an expression tree in place. */
module RewriteNodes {
  import opened Options
  import opened Words
  import opened Exprs
  import Rewrite

  /** A nested instruction is a value here, with the marks of its operands. */
  datatype Kind = BinKind(op: BinOp) | UnKind(uop: UnOp) | NumKind | RegKind | LabelKind | DiscardKind | PosKind
                | ZVecKind | MemKind | MemStepKind(step: Step) | SInsnKind(insn: SInsn, inner: seq<seq<Rewrite.Marks>>)

  /** `struct easm_expr`.  `tree` is the expression the node stands for. */
  class Node {
    var kind: Kind
    var num: Word
    var name: string
    var e1: Node?
    var e2: Node?
    var special: bool
    ghost var tree: Expr
    ghost var Repr: set<Node>

    ghost predicate Valid()
      reads this, Repr
      decreases Repr
    {
      && this in Repr
      && (e1 != null ==> e1 in Repr && e1.Repr <= Repr && this !in e1.Repr && e1.Valid())
      && (e2 != null ==> e2 in Repr && e2.Repr <= Repr && this !in e2.Repr && e2.Valid())
      && (e1 != null && e2 != null ==> e1.Repr !! e2.Repr)
      && Denotes(kind, num, name, if e1 == null then None else Some(e1.tree),
                 if e2 == null then None else Some(e2.tree), tree)
    }

    constructor Number(n: Word)
      ensures Valid() && fresh(Repr) && tree == Num(n) && kind == NumKind && num == n && !special
      ensures e1 == null && e2 == null
    {
      kind, num, name, e1, e2, special := NumKind, n, "", null, null, false;
      tree, Repr := Num(n), {this};
    }

    /** The operands are in order, whatever the node itself is thought to be. */
    ghost predicate Parts()
      reads this, e1, e2, if e1 != null then e1.Repr else {}, if e2 != null then e2.Repr else {}
    {
      && (e1 != null ==> this !in e1.Repr && e1.Valid())
      && (e2 != null ==> this !in e2.Repr && e2.Valid())
      && (e1 != null && e2 != null ==> e1.Repr !! e2.Repr)
    }

    ghost function Tree1(): Option<Expr>
      reads this, e1
    {
      if e1 == null then None else Some(e1.tree)
    }

    ghost function Tree2(): Option<Expr>
      reads this, e2
    {
      if e2 == null then None else Some(e2.tree)
    }

    /** Which nodes of the tree are marked. */
    ghost function Marks(): Rewrite.Marks
      requires Valid()
      reads this, Repr
      decreases Repr
    {
      if kind.SInsnKind? then Rewrite.Nested(special, kind.inner)
      else Rewrite.Both(special, if e1 == null then Rewrite.Here(false) else e1.Marks(),
                        if e2 == null then Rewrite.Here(false) else e2.Marks())
    }

    /** Nodes below this one. */
    ghost function Below(): set<Node>
      reads this, e1, e2
    {
      (if e1 == null then {} else e1.Repr) + (if e2 == null then {} else e2.Repr)
    }

    /** Bring the node's abstraction up to date with its fields. */
    ghost method Refresh(t: Expr)
      requires Parts() && Denotes(kind, num, name, Tree1(), Tree2(), t)
      modifies this`tree, this`Repr
      ensures Valid() && tree == t && Repr == {this} + Below()
    {
      tree := t;
      Repr := {this} + Below();
    }

    /** The node becomes a number and lets go of its operands. */
    method BecomeNumber(n: Word)
      modifies this
      ensures Valid() && Repr == {this} && tree == Num(n) && kind == NumKind && num == n
      ensures special == old(special)
    {
      kind, num, e1, e2 := NumKind, n, null, null;
      tree, Repr := Num(n), {this};
    }
  }

  /** The fields of a node spell the expression `t`. */
  ghost predicate Denotes(kind: Kind, num: Word, name: string, t1: Option<Expr>, t2: Option<Expr>, t: Expr) {
    match kind
    case BinKind(op) => t1.Some? && t2.Some? && t == Bin(op, t1.value, t2.value)
    case UnKind(op) => t1.Some? && t2.None? && t == Un(op, t1.value)
    case NumKind => t1.None? && t2.None? && t == Num(num)
    case RegKind => t1.None? && t2.None? && t == Reg(name)
    case LabelKind => t1.None? && t2.None? && t == Label(name)
    case DiscardKind => t1.None? && t2.None? && t == Discard
    case PosKind => t1.None? && t2.None? && t == Pos
    case ZVecKind => t1.None? && t2.None? && t == ZVec
    case MemKind => t1.Some? && t2.None? && t == Mem(name, t1.value)
    case MemStepKind(step) => t1.Some? && t2.Some? && t == MemStep(step, name, t1.value, t2.value)
    case SInsnKind(insn, _) => t1.None? && t2.None? && t == SInsnExpr(insn)
  }

  /** `easm_substpos_expr` */
  method SubstNode(n: Node, val: Word)
    requires n.Valid()
    modifies n.Repr
    ensures n.Valid() && n.Repr <= old(n.Repr)
    ensures n.tree == Rewrite.SubstPos(old(n.tree), val)
    ensures n.special == old(n.special)
    decreases n.Repr
  {
    hide Rewrite.SubstPos, Denotes, SubstKind;
    PosDenotes(n.kind, n.num, n.name, n.Tree1(), n.Tree2(), n.tree, val);
    if n.e1 != null {
      SubstNode(n.e1, val);
    }
    if n.e2 != null {
      SubstNode(n.e2, val);
    }
    if n.kind == PosKind {
      n.BecomeNumber(val);
    } else {
      n.kind := SubstKind(n.kind, val);
      SubstDenotes(old(n.kind), n.num, n.name, old(n.Tree1()), old(n.Tree2()), n.tree, val);
      n.Refresh(Rewrite.SubstPos(n.tree, val));
    }
  }

  /** The value of an arithmetic node over number nodes, if it has one. */
  method NodeValue(n: Node) returns (v: Option<Word>)
    requires n.Valid() && (n.kind.BinKind? || n.kind.UnKind?)
    requires n.e1 != null && n.e1.kind == NumKind && (n.e2 != null ==> n.e2.kind == NumKind)
    ensures Rewrite.FoldNode(n.tree) == if v.Some? then Num(v.value) else n.tree
  {
    v := match n.kind
      case UnKind(op) => Some(UnValue(op, n.e1.num))
      case BinKind(op) => if n.e2 == null then None else BinValue(op, n.e1.num, n.e2.num)
      case _ => None;
  }

  function Folded(t: Option<Expr>): Option<Expr> { if t.Some? then Some(Rewrite.Fold(t.value)) else None }

  function Substituted(t: Option<Expr>, val: Word): Option<Expr> {
    if t.Some? then Some(Rewrite.SubstPos(t.value, val)) else None
  }

  /** `easm_substpos_sinsn`, `easm_cfold_sinsn` and `dis_pp_sinsn` on a nested instruction. */
  function SubstKind(kind: Kind, val: Word): Kind {
    if kind.SInsnKind? then kind.(insn := Rewrite.SubstInsn(kind.insn, val)) else kind
  }

  function FoldKind(kind: Kind): Kind {
    if kind.SInsnKind? then kind.(insn := Rewrite.FoldInsn(kind.insn)) else kind
  }

  function TidyKind(kind: Kind, pos: Word, m: Rewrite.Marks): Kind {
    if kind.SInsnKind? then kind.(insn := Rewrite.TidyInsn(kind.insn, pos, m)) else kind
  }

  lemma FoldDenotes(kind: Kind, num: Word, name: string, t1: Option<Expr>, t2: Option<Expr>, t: Expr)
    requires Denotes(kind, num, name, t1, t2, t)
    ensures Denotes(FoldKind(kind), num, name, Folded(t1), Folded(t2), FoldedOperands(t))
  {
  }

  lemma PosDenotes(kind: Kind, num: Word, name: string, t1: Option<Expr>, t2: Option<Expr>, t: Expr, val: Word)
    requires Denotes(kind, num, name, t1, t2, t)
    ensures kind == PosKind ==> Rewrite.SubstPos(t, val) == Num(val)
  {
  }

  lemma SubstDenotes(kind: Kind, num: Word, name: string, t1: Option<Expr>, t2: Option<Expr>, t: Expr, val: Word)
    requires Denotes(kind, num, name, t1, t2, t) && kind != PosKind
    ensures Denotes(SubstKind(kind, val), num, name, Substituted(t1, val), Substituted(t2, val),
                    Rewrite.SubstPos(t, val))
  {
  }

  /** The operand part of `easm_cfold_expr`: are all operands numbers now? */
  method FoldOperands(n: Node) returns (numbers: bool)
    requires n.Valid() && n.kind != NumKind
    modifies n.Repr
    ensures n.Valid() && n.Repr <= old(n.Repr)
    ensures n.tree == FoldedOperands(old(n.tree))
    ensures n.kind == FoldKind(old(n.kind)) && n.special == old(n.special) && n.e1 == old(n.e1) && n.e2 == old(n.e2)
    ensures numbers <==> (n.e1 == null || n.e1.kind == NumKind) && (n.e2 == null || n.e2.kind == NumKind)
    decreases n.Repr, 0
  {
    hide Rewrite.Fold, FoldedOperands, Denotes, Rewrite.FoldInsn;
    var e1f, e2f := true, true;
    if n.e1 != null {
      e1f := FoldTree(n.e1);
    }
    if n.e2 != null {
      e2f := FoldTree(n.e2);
    }
    n.kind := FoldKind(n.kind);
    FoldDenotes(old(n.kind), n.num, n.name, old(n.Tree1()), old(n.Tree2()), n.tree);
    n.Refresh(FoldedOperands(n.tree));
    return e1f && e2f;
  }

  /** `easm_cfold_expr` */
  method FoldTree(n: Node) returns (folded: bool)
    requires n.Valid()
    modifies n.Repr
    ensures n.Valid() && n.Repr <= old(n.Repr)
    ensures n.tree == Rewrite.Fold(old(n.tree))
    ensures folded <==> n.kind == NumKind
    ensures n.special == old(n.special)
    decreases n.Repr, 1
  {
    if n.kind == NumKind {
      return true;
    }
    var numbers := FoldOperands(n);
    if !numbers || !(n.kind.BinKind? || n.kind.UnKind?) {
      return false;
    }
    var v := NodeValue(n);
    if v.None? {
      return false;
    }
    n.BecomeNumber(v.value);
    return true;
  }

  /** Folding, up to the operands. */
  function FoldedOperands(e: Expr): Expr {
    match e
    case Bin(op, e1, e2) => Bin(op, Rewrite.Fold(e1), Rewrite.Fold(e2))
    case Un(op, e1) => Un(op, Rewrite.Fold(e1))
    case _ => Rewrite.Fold(e)
  }

  /** `*expr = *c` */
  method TakeOver(n: Node, c: Node)
    requires c.Valid() && n !in c.Repr
    modifies n
    ensures n.Valid() && n.Repr <= {n} + c.Repr && n.tree == c.tree
  {
    hide Denotes;
    n.kind, n.num, n.name, n.e1, n.e2, n.special := c.kind, c.num, c.name, c.e1, c.e2, c.special;
    n.Refresh(c.tree);
  }

  /** Show a negative number as a negation. */
  method ShowSignNode(n: Node)
    requires n.Valid()
    modifies n
    ensures n.Valid() && fresh(n.Repr - old(n.Repr))
    ensures n.tree == Rewrite.ShowSign(old(n.tree), old(n.special))
  {
    if n.kind == NumKind && n.num[63] && !n.special {
      var c := new Node.Number(Neg(n.num));
      n.kind, n.num, n.e1 := UnKind(NegOp), Zero(), c;
      n.Refresh(Un(NegOp, c.tree));
    }
  }

  method DropLeftZeroNode(n: Node)
    requires n.Valid()
    modifies n
    ensures n.Valid() && n.Repr <= old(n.Repr)
    ensures n.tree == Rewrite.DropLeftZero(old(n.tree))
  {
    if n.kind == BinKind(AddOp) && n.e1.kind == NumKind && n.e1.num == Zero() {
      TakeOver(n, n.e2);
    }
  }

  method DropRightZeroNode(n: Node)
    requires n.Valid()
    modifies n
    ensures n.Valid() && n.Repr <= old(n.Repr)
    ensures n.tree == Rewrite.DropRightZero(old(n.tree))
  {
    if (n.kind == BinKind(AddOp) || n.kind == BinKind(SubOp)) && n.e2.kind == NumKind && n.e2.num == Zero() {
      TakeOver(n, n.e1);
    }
  }

  method AddToSubNode(n: Node)
    requires n.Valid()
    modifies n.Repr
    ensures n.Valid() && n.Repr <= old(n.Repr)
    ensures n.tree == Rewrite.AddToSub(old(n.tree))
  {
    if n.kind == BinKind(AddOp) && n.e2.kind == NumKind && n.e2.num[63] {
      n.e2.BecomeNumber(Neg(n.e2.num));
      n.kind := BinKind(SubOp);
      n.Refresh(Bin(SubOp, n.e1.tree, n.e2.tree));
    }
  }

  /** The part of `dis_pp_expr` after the recursion. */
  method TidyHere(n: Node, pos: Word)
    requires n.Valid()
    modifies n.Repr
    ensures n.Valid() && fresh(n.Repr - old(n.Repr))
    ensures n.tree == Rewrite.TidyNode(old(n.tree), pos, old(n.special))
  {
    hide Denotes, Rewrite.SubstPos, Rewrite.Fold, Rewrite.ShowSign;
    hide Rewrite.DropLeftZero, Rewrite.DropRightZero, Rewrite.AddToSub;
    SubstNode(n, pos);
    var _ := FoldTree(n);
    ShowSignNode(n);
    DropLeftZeroNode(n);
    DropRightZeroNode(n);
    AddToSubNode(n);
  }

  function TidiedOperands(e: Expr, pos: Word, m: Rewrite.Marks): Expr {
    var l, r := Rewrite.Left(m), Rewrite.Right(m);
    match e
    case Bin(op, e1, e2) => Bin(op, Rewrite.TidyMarked(e1, pos, l), Rewrite.TidyMarked(e2, pos, r))
    case Un(op, e1) => Un(op, Rewrite.TidyMarked(e1, pos, l))
    case Mem(name, a) => Mem(name, Rewrite.TidyMarked(a, pos, l))
    case MemStep(step, name, a, b) => MemStep(step, name, Rewrite.TidyMarked(a, pos, l), Rewrite.TidyMarked(b, pos, r))
    case SInsnExpr(insn) => SInsnExpr(Rewrite.TidyInsn(insn, pos, m))
    case _ => e
  }

  function Tidied(t: Option<Expr>, pos: Word, m: Rewrite.Marks): Option<Expr> {
    if t.Some? then Some(Rewrite.TidyMarked(t.value, pos, m)) else None
  }

  lemma TidyDenotes(kind: Kind, num: Word, name: string, t1: Option<Expr>, t2: Option<Expr>, t: Expr, pos: Word,
                    m: Rewrite.Marks)
    requires Denotes(kind, num, name, t1, t2, t)
    ensures Denotes(TidyKind(kind, pos, m), num, name, Tidied(t1, pos, Rewrite.Left(m)),
                    Tidied(t2, pos, Rewrite.Right(m)), TidiedOperands(t, pos, m))
  {
  }

  lemma TidySplits(t: Expr, pos: Word, m: Rewrite.Marks)
    ensures Rewrite.TidyMarked(t, pos, m) == Rewrite.TidyNode(TidiedOperands(t, pos, m), pos, m.special)
  {
  }

  /** The recursion of `dis_pp_expr` into the operands. */
  method TidyOperands(n: Node, pos: Word)
    requires n.Valid()
    modifies n.Repr
    ensures n.Valid() && fresh(n.Repr - old(n.Repr)) && n.special == old(n.special)
    ensures n.tree == TidiedOperands(old(n.tree), pos, old(n.Marks()))
    decreases n.Repr, 0
  {
    hide Rewrite.TidyMarked, TidiedOperands, Denotes;
    ghost var m := n.Marks();
    TidyDenotes(n.kind, n.num, n.name, n.Tree1(), n.Tree2(), n.tree, pos, m);
    if n.e1 != null {
      TidyTree(n.e1, pos);
    }
    if n.e2 != null {
      TidyTree(n.e2, pos);
    }
    if n.kind.SInsnKind? {
      n.kind := TidyKind(n.kind, pos, Rewrite.Nested(n.special, n.kind.inner));
    }
    n.Refresh(TidiedOperands(n.tree, pos, m));
  }

  /** `dis_pp_expr`, whichever nodes are marked. */
  method TidyTree(n: Node, pos: Word)
    requires n.Valid()
    modifies n.Repr
    ensures n.Valid() && fresh(n.Repr - old(n.Repr))
    ensures n.tree == Rewrite.TidyMarked(old(n.tree), pos, old(n.Marks()))
    decreases n.Repr, 1
  {
    TidySplits(n.tree, pos, n.Marks());
    TidyOperands(n, pos);
    TidyHere(n, pos);
  }
}
