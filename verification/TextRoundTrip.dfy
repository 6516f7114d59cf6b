/** The whole way round: an opcode is disassembled, cleaned up, parsed, printed as text,
    and that text is lexed, parsed, flattened and assembled. */
module TextRoundTrip {
  import opened Options
  import opened Words
  import opened Exprs
  import opened Fields
  import opened Registers
  import opened Tables
  import opened AsmSound
  import opened AsmComplete
  import Flatten
  import Lexer
  import InsnText

  /** The text that is printed for a token list, if it is an instruction. */
  function TextOf(items: seq<Item>): Option<string> {
    match Flatten.ParseInsn(items)
    case None => None
    case Some(i) => Some(Lexer.Text(InsnText.PrintInsn(i)))
  }

  /** The candidates for a text that stands behind white space if `ws`. */
  function AssembleText(root: Table, text: string, ws: bool, vi: VarInfo): seq<Match>
    requires ValidTable(root)
  {
    match InsnText.ReadInsnText(text, ws)
    case None => []
    case Some(i) => DoAs(root, Flatten.FlatInsn(i), vi)
  }

  /** The tokens are an instruction whose text is readable where it stands. */
  predicate Printable(items: seq<Item>, ws: bool) {
    && Flatten.ParseInsn(items).Some? && Flatten.PlainItems(items)
    && var i := Flatten.ParseInsn(items).value;
       InsnText.ReadableInsn(i) && (InsnText.InsnLeadsNeg(i) ==> ws)
  }

  /** The text of such tokens is assembled as the tokens are. */
  lemma TextAssembles(root: Table, items: seq<Item>, ws: bool, vi: VarInfo)
    requires ValidTable(root) && Printable(items, ws)
    ensures AssembleText(root, TextOf(items).value, ws, vi) == DoAs(root, items, vi)
  {
    hide Flatten.FlatInsn, Flatten.ParseInsn, DoAs, InsnText.PrintInsn, Lexer.Text;
    var i := Flatten.ParseInsn(items).value;
    Flatten.ParseThenFlatten(items);
    InsnText.InsnTextIsRead(i, ws);
  }

  /** The round trip through the text, whatever is marked: assembling what was printed
      for an opcode gives, as one candidate, an encoding of the same length that relocates
      at its position and fixes only bits that the opcode has. */
  lemma OpcodeTextRoundTrip(root: Table, x: Code, marked: seq<bool>, ws: bool, vi: VarInfo, pos: Word)
    returns (mt: Match)
    requires ValidTable(root) && ClearTable(root, vi) && Known(DisTab(root, x, vi).items)
    requires |marked| == |DisTab(root, x, vi).items| && NoSignTab(root, x, vi)
    requires Printable(Cleaned(DisTab(root, x, vi).items, marked, pos), ws)
    ensures var text := TextOf(Cleaned(DisTab(root, x, vi).items, marked, pos)).value;
            mt in AssembleText(root, text, ws, vi)
    ensures GoodMatch(mt) && Satisfies(x, mt, pos, map[]) && mt.oplen == LengthOr(DisTab(root, x, vi), 0)
    ensures Resolve(mt, pos, map[]).Fits?
    ensures Agrees(x, Resolve(mt, pos, map[]).a, Resolve(mt, pos, map[]).m)
  {
    hide DisTab, DoAs, Resolve, TextOf, Printable, AssembleText;
    mt := PrintedRoundTrip(root, x, marked, vi, pos);
    TextAssembles(root, Cleaned(DisTab(root, x, vi).items, marked, pos), ws, vi);
  }
}
