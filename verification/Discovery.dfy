/** Code discovery: the driver of `envydis` follows branch and call targets from
    the given labels until nothing new turns up.

    Decoding one instruction is a parameter, given by module DisBlock: what an opcode at an
    offset decodes to does not depend on the marks. */
module Discovery {

  /** Length, end mark, and the absolute call, branch and literal addresses that
      post-processing finds in the instruction. */
  datatype Decoded = Decoded(len: nat, endmark: bool, calls: seq<nat>, branches: seq<nat>, literals: seq<nat>)

  /** One mark word, flag by flag: 1, 2, 4, 8, 0x10 and 0x40. */
  datatype Flags = Flags(btarg: bool, ctarg: bool, stop: bool, seen: bool, literal: bool, noreturn: bool)
  {
    predicate Marked() { btarg || ctarg }
  }

  // ---------------------------------------------------------------------
  // What is to be found
  // ---------------------------------------------------------------------

  /** A block of `size` code units at address `base`, the marks that the labels
      put on it, and what the opcodes in it decode to. */
  datatype Block = Block(base: nat, size: nat, init: seq<Flags>, decode: nat -> Decoded)
  {
    predicate Valid() {
      |init| == size && forall p :: 0 <= p < size ==> !init[p].seen
    }

    /** `ptr` lies in the block and its label says that calls to it do not return. */
    predicate NoReturn(ptr: nat)
      requires Valid()
    {
      base <= ptr < base + size && init[ptr - base].noreturn
    }

    predicate Ends(p: nat)
      requires Valid()
    {
      decode(p).endmark || exists t :: t in decode(p).calls && NoReturn(t)
    }

    /** The instruction that execution falls through to, if any. */
    function Next(p: nat): (r: nat)
      requires Valid() && p < size
      ensures r == size || p < r < size
    {
      var d := decode(p);
      if d.len != 0 && !Ends(p) && !init[p].stop && p + d.len < size then p + d.len else size
    }

    /** `p` is met when execution starts at `s`. */
    predicate OnRun(s: nat, p: nat)
      requires Valid() && s <= size
      decreases size - s
    {
      s < size && (p == s || OnRun(Next(s), p))
    }

    /** Execution falls through from the instruction at `p` to `q`: it has a length, is no end,
        calls nothing that does not return, its address is not marked as a stop, and `q`
        is right behind it, inside the block. */
    ghost predicate FallsTo(p: nat, q: nat)
      requires Valid()
    {
      && p < q < size && q == p + decode(p).len && !decode(p).endmark && !init[p].stop
      && forall t :: t in decode(p).calls && base <= t < base + size ==> !init[t - base].noreturn
    }

    ghost predicate IsPath(path: seq<nat>)
      requires Valid()
    {
      && path != [] && path[0] < size
      && forall i :: 0 <= i < |path| - 1 ==> FallsTo(path[i], path[i + 1])
    }

    /** A run meets exactly the addresses that a path of such steps leads to. */
    lemma RunIsPath(s: nat, p: nat)
      requires Valid() && s <= size
      ensures OnRun(s, p) <==> exists path :: IsPath(path) && path[0] == s && path[|path| - 1] == p
    {
      if OnRun(s, p) {
        var path := PathOf(s, p);
      }
      forall path | IsPath(path) && path[0] == s && path[|path| - 1] == p ensures OnRun(s, p) {
        PathRuns(path);
      }
    }

    lemma NextFalls(p: nat, q: nat)
      requires Valid() && p < size && q < size
      ensures FallsTo(p, q) <==> Next(p) == q
    {
    }

    lemma {:induction false} PathOf(s: nat, p: nat) returns (path: seq<nat>)
      requires Valid() && s <= size && OnRun(s, p)
      ensures IsPath(path) && path[0] == s && path[|path| - 1] == p
      decreases size - s
    {
      path := [s];
      if p != s {
        var rest := PathOf(Next(s), p);
        NextFalls(s, Next(s));
        path := [s] + rest;
        forall i | 0 <= i < |path| - 1 ensures FallsTo(path[i], path[i + 1]) {
          if i > 0 {
            assert path[i] == rest[i - 1] && path[i + 1] == rest[i];
          }
        }
      }
    }

    lemma {:induction false} PathRuns(path: seq<nat>)
      requires Valid() && IsPath(path)
      ensures OnRun(path[0], path[|path| - 1])
      decreases |path|
    {
      if |path| > 1 {
        assert FallsTo(path[0], path[1]);
        NextFalls(path[0], path[1]);
        forall i | 0 <= i < |path[1..]| - 1 ensures FallsTo(path[1..][i], path[1..][i + 1]) {
          assert FallsTo(path[i + 1], path[i + 2]);
        }
        PathRuns(path[1..]);
      }
    }

    predicate Targets(ts: seq<nat>, p: nat) { base + p in ts }

    /** Marks `(b, c)` that contain the labels and the branch and call targets of
        every instruction met from any marked start. */
    ghost predicate Closed(b: set<nat>, c: set<nat>)
      requires Valid()
    {
      && (forall p :: 0 <= p < size ==> (init[p].btarg ==> p in b) && (init[p].ctarg ==> p in c))
      && (forall s, p, t :: 0 <= s < size && s in b + c && OnRun(s, p) && 0 <= t < size ==>
            (Targets(decode(p).branches, t) ==> t in b) && (Targets(decode(p).calls, t) ==> t in c))
    }

    ghost function Branched(marks: seq<Flags>): set<nat> { set p | 0 <= p < |marks| && marks[p].btarg }

    ghost function Called(marks: seq<Flags>): set<nat> { set p | 0 <= p < |marks| && marks[p].ctarg }

    // -------------------------------------------------------------------
    // Invariants of the search, on the contents of the mark array
    // -------------------------------------------------------------------

    /** The targets of the instruction at `p` are marked. */
    ghost predicate Followed(marks: seq<Flags>, p: nat)
      requires |marks| == size
    {
      forall t :: 0 <= t < size ==>
        (Targets(decode(p).branches, t) ==> marks[t].btarg) && (Targets(decode(p).calls, t) ==> marks[t].ctarg)
    }

    /** The part of the run from `s` in front of `cur` has been followed. */
    ghost predicate FollowedTo(marks: seq<Flags>, s: nat, cur: nat)
      requires Valid() && |marks| == size && s <= size
    {
      forall p: nat :: OnRun(s, p) && p < cur ==> Followed(marks, p)
    }

    /** Nothing is marked without need, and the labels' own flags survive. */
    ghost predicate Sound(marks: seq<Flags>)
      requires Valid()
    {
      && |marks| == size
      && (forall p :: 0 <= p < size ==>
            && marks[p].stop == init[p].stop && marks[p].noreturn == init[p].noreturn
            && (init[p].btarg ==> marks[p].btarg) && (init[p].ctarg ==> marks[p].ctarg)
            && (marks[p].seen ==> marks[p].Marked()))
      && (forall b, c :: Closed(b, c) ==> Branched(marks) <= b && Called(marks) <= c)
    }

    /** Every start used so far, other than `busy`, has been followed through. */
    ghost predicate Used(marks: seq<Flags>, busy: nat)
      requires Valid() && |marks| == size
    {
      forall s :: 0 <= s < size && s != busy && marks[s].seen ==> FollowedTo(marks, s, size)
    }

    /** Marks only ever grow. */
    ghost predicate Grown(m0: seq<Flags>, m1: seq<Flags>) {
      |m0| == |m1| && forall p :: 0 <= p < |m0| ==>
        (m0[p].btarg ==> m1[p].btarg) && (m0[p].ctarg ==> m1[p].ctarg)
        && m1[p].seen == m0[p].seen
    }

    lemma UsedStays(m0: seq<Flags>, m1: seq<Flags>, busy: nat)
      requires Valid() && |m0| == size && Grown(m0, m1) && Used(m0, busy)
      ensures Used(m1, busy)
    {
      forall s | 0 <= s < size && s != busy && m1[s].seen ensures FollowedTo(m1, s, size) {
        FollowedStays(m0, m1, s, size);
      }
    }

    lemma FollowedStays(m0: seq<Flags>, m1: seq<Flags>, s: nat, cur: nat)
      requires Valid() && s <= size && |m0| == size && Grown(m0, m1) && FollowedTo(m0, s, cur)
      ensures FollowedTo(m1, s, cur)
    {
      forall p: nat | OnRun(s, p) && p < cur ensures Followed(m1, p) {
        assert Followed(m0, p);
      }
    }

    /** A run never steps backwards: beyond `cur` it continues at `Next(cur)`. */
    lemma {:induction false} RunOrder(s: nat, cur: nat, p: nat)
      requires Valid() && s < size && OnRun(s, cur) && OnRun(s, p)
      ensures s <= p < size && s <= cur < size
      ensures p <= cur || Next(cur) <= p
      decreases size - s
    {
      if p != s {
        RunAfter(Next(s), p);
      }
      if cur != s {
        RunAfter(Next(s), cur);
        if p != s {
          RunOrder(Next(s), cur, p);
        }
      }
    }

    lemma {:induction false} RunAfter(s: nat, p: nat)
      requires Valid() && s <= size && OnRun(s, p)
      ensures s <= p < size
      decreases size - s
    {
      if p != s {
        RunAfter(Next(s), p);
      }
    }

    lemma {:induction false} RunOn(s: nat, cur: nat)
      requires Valid() && s < size && OnRun(s, cur) && cur < size && Next(cur) < size
      ensures OnRun(s, Next(cur))
      decreases size - s
    {
      if cur != s {
        RunOn(Next(s), cur);
      }
    }

    /** Following one more instruction extends the followed part of the run. */
    lemma FollowOne(marks: seq<Flags>, s: nat, cur: nat)
      requires Valid() && |marks| == size && s < size && cur < size && OnRun(s, cur)
      requires FollowedTo(marks, s, cur) && Followed(marks, cur)
      ensures FollowedTo(marks, s, Next(cur))
    {
      forall p: nat | OnRun(s, p) && p < Next(cur) ensures Followed(marks, p) {
        RunOrder(s, cur, p);
      }
    }

    /** Marking the targets of an instruction on a marked run adds nothing that a
        closed pair of sets does not contain. */
    lemma MarkingIsSound(m0: seq<Flags>, m1: seq<Flags>, s: nat, cur: nat)
      requires Valid() && Sound(m0) && Grown(m0, m1) && s < size && m0[s].Marked() && OnRun(s, cur)
      requires forall p :: 0 <= p < size ==>
                 && (m1[p].btarg <==> m0[p].btarg || Targets(decode(cur).branches, p))
                 && (m1[p].ctarg <==> m0[p].ctarg || Targets(decode(cur).calls, p))
                 && m1[p].stop == m0[p].stop && m1[p].noreturn == m0[p].noreturn
      ensures Sound(m1)
    {
      forall b, c | Closed(b, c) ensures Branched(m1) <= b && Called(m1) <= c {
        assert Branched(m0) <= b && Called(m0) <= c;
        assert s in Branched(m0) || s in Called(m0);
        assert s in b + c;
      }
      forall p | 0 <= p < size ensures m1[p].seen ==> m1[p].Marked() {
      }
    }

    /** Setting the seen flag of a marked place changes no other flag. */
    lemma SeenIsSound(m0: seq<Flags>, s: nat)
      requires Valid() && Sound(m0) && s < size && m0[s].Marked()
      ensures Sound(m0[s := m0[s].(seen := true)])
    {
      var m1 := m0[s := m0[s].(seen := true)];
      assert Branched(m1) == Branched(m0);
      assert Called(m1) == Called(m0);
    }

    /** The least fixpoint: when every marked place has been used as a start, the
        marks are closed, and every closed pair contains them. */
    lemma FixpointReached(marks: seq<Flags>)
      requires Valid() && Sound(marks) && Used(marks, size)
      requires forall p :: 0 <= p < size && marks[p].Marked() ==> marks[p].seen
      ensures Closed(Branched(marks), Called(marks))
      ensures forall b, c :: Closed(b, c) ==> Branched(marks) <= b && Called(marks) <= c
    {
      var b, c := Branched(marks), Called(marks);
      forall s, p, t | 0 <= s < size && s in b + c && OnRun(s, p) && 0 <= t < size
        ensures (Targets(decode(p).branches, t) ==> t in b) && (Targets(decode(p).calls, t) ==> t in c)
      {
        assert FollowedTo(marks, s, size);
        RunAfter(s, p);
        assert Followed(marks, p);
      }
    }
  }

  // ---------------------------------------------------------------------
  // The search
  // ---------------------------------------------------------------------

  ghost function Unseen(marks: seq<Flags>): nat {
    |set p | 0 <= p < |marks| && !marks[p].seen|
  }

  lemma UnseenDrop(marks: seq<Flags>, s: nat)
    requires s < |marks| && !marks[s].seen
    ensures Unseen(marks[s := marks[s].(seen := true)]) == Unseen(marks) - 1
  {
    var before := set p | 0 <= p < |marks| && !marks[p].seen;
    var m1 := marks[s := marks[s].(seen := true)];
    var after := set p | 0 <= p < |m1| && !m1[p].seen;
    assert after == before - {s};
  }

  lemma UnseenSame(m0: seq<Flags>, m1: seq<Flags>)
    requires |m0| == |m1| && forall p :: 0 <= p < |m0| ==> m1[p].seen == m0[p].seen
    ensures Unseen(m1) == Unseen(m0)
  {
    assert (set p | 0 <= p < |m1| && !m1[p].seen) == (set p | 0 <= p < |m0| && !m0[p].seen);
  }

  lemma {:induction false} UnseenBound(marks: seq<Flags>)
    ensures Unseen(marks) <= |marks|
  {
    if marks != [] {
      var n := |marks| - 1;
      var init := marks[..n];
      UnseenBound(init);
      var all := set p | 0 <= p < |marks| && !marks[p].seen;
      var low := set p | 0 <= p < |init| && !init[p].seen;
      assert all == low || all == low + {n};
    }
  }

  datatype MarkKind = BranchMark | CallMark | LiteralMark

  /** `marks |= 1`, `marks |= 2` or `marks |= 0x10` */
  function Add(x: Flags, kind: MarkKind): Flags {
    match kind
    case BranchMark => x.(btarg := true)
    case CallMark => x.(ctarg := true)
    case LiteralMark => x.(literal := true)
  }

  /** A mark after those of one instruction were added to it. */
  function AddAll(x: Flags, call: bool, branch: bool, literal: bool): Flags {
    x.(ctarg := x.ctarg || call, btarg := x.btarg || branch, literal := x.literal || literal)
  }

  /** `struct decoctx` */
  class Discoverer {
    const block: Block
    const marks: array<Flags>

    ghost predicate Valid()
      reads this, marks
    {
      block.Valid() && marks.Length == block.size && block.Sound(marks[..])
    }

    constructor (block: Block)
      requires block.Valid()
      ensures this.block == block && fresh(marks) && marks[..] == block.init && Valid()
    {
      this.block := block;
      marks := new Flags[block.size](p requires 0 <= p < block.size => block.init[p]);
      new;
      assert marks[..] == block.init;
      InitSound(block);
    }

    /** `mark`: addresses outside the block are ignored. */
    method Mark(ptr: nat, kind: MarkKind)
      requires marks.Length == block.size
      modifies marks
      ensures forall p :: 0 <= p < block.size ==>
                marks[p] == if block.base + p == ptr then Add(old(marks[p]), kind) else old(marks[p])
    {
      if block.base <= ptr < block.base + block.size {
        marks[ptr - block.base] := Add(marks[ptr - block.base], kind);
      }
    }

    method MarkAll(ts: seq<nat>, kind: MarkKind)
      requires marks.Length == block.size
      modifies marks
      ensures forall p :: 0 <= p < block.size ==>
                marks[p] == if block.base + p in ts then Add(old(marks[p]), kind) else old(marks[p])
    {
      for i := 0 to |ts|
        invariant forall p :: 0 <= p < block.size ==>
          marks[p] == if block.base + p in ts[..i] then Add(old(marks[p]), kind) else old(marks[p])
      {
        Mark(ts[i], kind);
        assert ts[..i + 1] == ts[..i] + [ts[i]];
      }
      assert ts[..|ts|] == ts;
    }

    /** `do_dis` and `dis_dopp` on one instruction: mark what it refers to, and
        tell whether execution ends here. */
    method Follow(cur: nat) returns (len: nat, ends: bool)
      requires Valid() && cur < block.size
      modifies marks
      ensures len == block.decode(cur).len && ends == block.Ends(cur)
      ensures forall p :: 0 <= p < block.size ==>
                && (marks[p].btarg <==> old(marks[p].btarg) || block.Targets(block.decode(cur).branches, p))
                && (marks[p].ctarg <==> old(marks[p].ctarg) || block.Targets(block.decode(cur).calls, p))
                && marks[p].seen == old(marks[p].seen)
                && marks[p].stop == old(marks[p].stop) && marks[p].noreturn == old(marks[p].noreturn)
    {
      var d := block.decode(cur);
      len := d.len;
      ends := Stops(cur);
      MarkAll(d.calls, CallMark);
      MarkAll(d.branches, BranchMark);
      MarkAll(d.literals, LiteralMark);
      forall p | 0 <= p < block.size
        ensures marks[p] == AddAll(old(marks[p]), block.base + p in d.calls, block.base + p in d.branches,
                                   block.base + p in d.literals)
      {
      }
    }

    /** `is_nr_mark` */
    method IsNoReturn(ptr: nat) returns (r: bool)
      requires Valid()
      ensures r == block.NoReturn(ptr)
    {
      r := block.base <= ptr < block.base + block.size && marks[ptr - block.base].noreturn;
    }

    /** The end mark of an instruction, including calls that do not return. */
    method Stops(cur: nat) returns (ends: bool)
      requires Valid()
      ensures ends == block.Ends(cur)
    {
      var d := block.decode(cur);
      ends := d.endmark;
      for i := 0 to |d.calls|
        invariant ends <==> d.endmark || exists t :: t in d.calls[..i] && block.NoReturn(t)
      {
        var nr := IsNoReturn(d.calls[i]);
        ends := ends || nr;
        assert d.calls[..i + 1] == d.calls[..i] + [d.calls[i]];
      }
      assert d.calls[..|d.calls|] == d.calls;
    }

    /** One pass of the label-driven loop of `envydis`: it is the last one unless it
        finds a mark that has not been used as a start. */
    method Pass() returns (done: bool)
      requires Valid() && block.Used(marks[..], block.size)
      modifies marks
      ensures Valid() && block.Used(marks[..], block.size)
      ensures if done then Unseen(marks[..]) == Unseen(old(marks[..])) else Unseen(marks[..]) < Unseen(old(marks[..]))
      ensures done ==> forall p :: 0 <= p < block.size && marks[p].Marked() ==> marks[p].seen
    {
      hide Scanning;
      done := true;
      var cur: nat, active := 0, false;
      ghost var start: nat := block.size;
      Idle(block, marks[..], start, cur);
      while cur < block.size
        invariant Valid()
        invariant Scanning(block, marks[..], start, cur, active)
        invariant if done then !active && Unseen(marks[..]) == Unseen(old(marks[..]))
                  else Unseen(marks[..]) < Unseen(old(marks[..]))
        invariant done ==> forall p :: 0 <= p < cur && p < block.size && marks[p].Marked() ==> marks[p].seen
        decreases Unseen(marks[..]), block.size - cur, active
      {
        if !active && marks[cur].Marked() && !marks[cur].seen {
          Idle(block, marks[..], start, cur);
          done, active := false, true;
          start := cur;
          Activate(block, marks[..], cur);
          UnseenDrop(marks[..], cur);
          marks[cur] := marks[cur].(seen := true);
        }
        if active {
          ghost var m0 := marks[..];
          var len, ends := Follow(cur);
          FollowStep(block, m0, marks[..], start, cur);
          UnseenSame(m0, marks[..]);
          if len != 0 && !ends && !marks[cur].stop {
            cur := cur + len;
          } else {
            active := false;
          }
        } else {
          Idle(block, marks[..], start, cur);
          cur := cur + 1;
          Idle(block, marks[..], start, cur);
        }
      }
      ScanOver(block, marks[..], start, cur, active);
    }

    /** The label-driven loop of `envydis`: on exit the marks are the least closed
        pair of sets, every mark inside the block has been used as a start, and
        there were at most `size + 1` passes. */
    method Search() returns (passes: nat)
      requires Valid() && marks[..] == block.init
      modifies marks
      ensures Valid() && passes <= block.size + 1
      ensures forall p :: 0 <= p < block.size && marks[p].Marked() ==> marks[p].seen
      ensures block.Closed(block.Branched(marks[..]), block.Called(marks[..]))
      ensures forall b, c :: block.Closed(b, c) ==>
                block.Branched(marks[..]) <= b && block.Called(marks[..]) <= c
    {
      passes := 0;
      var done := false;
      UnseenBound(marks[..]);
      while !done
        invariant Valid() && block.Used(marks[..], block.size)
        invariant passes + Unseen(marks[..]) <= block.size + (if done then 1 else 0)
        invariant done ==> forall p :: 0 <= p < block.size && marks[p].Marked() ==> marks[p].seen
        decreases !done, Unseen(marks[..])
      {
        done := Pass();
        passes := passes + 1;
      }
      block.FixpointReached(marks[..]);
    }
  }

  lemma InitSound(block: Block)
    requires block.Valid()
    ensures block.Sound(block.init) && block.Used(block.init, block.size)
  {
    forall b, c | block.Closed(b, c) ensures block.Branched(block.init) <= b && block.Called(block.init) <= c {
    }
  }

  /** The middle of a pass: all earlier starts are followed through, and the
      active one up to `cur`. */
  ghost predicate Scanning(block: Block, marks: seq<Flags>, start: nat, cur: nat, active: bool)
    requires block.Valid() && |marks| == block.size
  {
    if active then
      && start < block.size && marks[start].seen && block.Used(marks, start)
      && block.FollowedTo(marks, start, cur)
      && (cur < block.size ==> block.OnRun(start, cur))
    else block.Used(marks, block.size)
  }

  lemma Idle(block: Block, marks: seq<Flags>, start: nat, cur: nat)
    requires block.Valid() && |marks| == block.size
    ensures Scanning(block, marks, start, cur, false) <==> block.Used(marks, block.size)
  {
  }

  lemma Activate(block: Block, marks: seq<Flags>, cur: nat)
    requires block.Valid() && block.Sound(marks) && cur < block.size
    requires marks[cur].Marked() && !marks[cur].seen && block.Used(marks, block.size)
    ensures var m1 := marks[cur := marks[cur].(seen := true)];
            block.Sound(m1) && Scanning(block, m1, cur, cur, true)
  {
    var m1 := marks[cur := marks[cur].(seen := true)];
    block.SeenIsSound(marks, cur);
    forall s | 0 <= s < block.size && s != cur && m1[s].seen ensures block.FollowedTo(m1, s, block.size) {
      assert block.FollowedTo(marks, s, block.size);
      forall p: nat | block.OnRun(s, p) && p < block.size ensures block.Followed(m1, p) {
        assert block.Followed(marks, p);
      }
    }
    forall p: nat | block.OnRun(cur, p) ensures cur <= p {
      block.RunAfter(cur, p);
    }
  }

  /** Following the instruction at `cur` of the active run. */
  lemma FollowStep(block: Block, m0: seq<Flags>, m1: seq<Flags>, start: nat, cur: nat)
    requires block.Valid() && block.Sound(m0) && |m1| == block.size && cur < block.size
    requires Scanning(block, m0, start, cur, true)
    requires forall p :: 0 <= p < block.size ==>
               && (m1[p].btarg <==> m0[p].btarg || block.Targets(block.decode(cur).branches, p))
               && (m1[p].ctarg <==> m0[p].ctarg || block.Targets(block.decode(cur).calls, p))
               && m1[p].seen == m0[p].seen && m1[p].stop == m0[p].stop && m1[p].noreturn == m0[p].noreturn
    ensures block.Sound(m1) && m1[cur].stop == block.init[cur].stop
    ensures block.Next(cur) == block.size ==>
              && Scanning(block, m1, start, cur, false)
              && forall c :: c >= block.size ==> Scanning(block, m1, start, c, true)
    ensures block.Next(cur) < block.size ==> Scanning(block, m1, start, block.Next(cur), true)
  {
    block.MarkingIsSound(m0, m1, start, cur);
    block.UsedStays(m0, m1, start);
    block.FollowedStays(m0, m1, start, cur);
    block.FollowOne(m1, start, cur);
    if block.Next(cur) < block.size {
      block.RunOn(start, cur);
    } else {
      forall c | c >= block.size ensures block.FollowedTo(m1, start, c) {
        forall p: nat | block.OnRun(start, p) ensures p < block.size {
          block.RunAfter(start, p);
        }
      }
    }
  }

  /** At the end of a pass the active run, if any, has left the block. */
  lemma ScanOver(block: Block, marks: seq<Flags>, start: nat, cur: nat, active: bool)
    requires block.Valid() && |marks| == block.size && cur >= block.size && Scanning(block, marks, start, cur, active)
    ensures block.Used(marks, block.size)
  {
    if active {
      assert block.FollowedTo(marks, start, block.size);
    }
  }
}
