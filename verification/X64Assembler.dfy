/** The assembler: a growing buffer, and labels whose references are patched when they are bound. */
module X64Assembler {
  import opened X64Encoding
  import opened X64RoundTrip
  import opened Options

  // ---------------------------------------------------------------- what has been emitted

  datatype JumpKind = JmpTo | JccTo(c: nat) | CallTo

  /** An instruction, or a jump to a label. */
  datatype Item = Plain(i: Instr) | ToLabel(kind: JumpKind, target: nat)

  /** The address a label is bound to, or -1; and the rel32 fields that wait for it. */
  datatype Label = Label(bound: int, patches: seq<nat>)

  function Bound(ls: map<nat, Label>, l: nat): int { if l in ls then ls[l].bound else -1 }

  function Patches(ls: map<nat, Label>, l: nat): seq<nat> { if l in ls then ls[l].patches else [] }

  function JumpInstr(k: JumpKind, rel: int): Instr {
    match k case JmpTo => Jmp(rel) case JccTo(c) => Jcc(c, rel) case CallTo => CallRel(rel)
  }

  function OpBytes(k: JumpKind): Bytes {
    match k case JmpTo => [0xE9] case JccTo(c) => [0x0F, 0x80 + c] case CallTo => [0xE8]
  }

  /** The field of a jump that stands at `field`: the distance from its own end, or zero. */
  function FieldBytes(field: nat, bound: int): Bytes {
    if bound >= 0 then Rel32(bound - (field + 4)) else Rel32(0)
  }

  function ItemSize(it: Item): nat {
    match it case Plain(i) => |Encode(i)| case ToLabel(k, _) => |OpBytes(k)| + 4
  }

  function ItemBytes(it: Item, at: nat, ls: map<nat, Label>): Bytes {
    match it
    case Plain(i) => Encode(i)
    case ToLabel(k, l) => OpBytes(k) + FieldBytes(at + |OpBytes(k)|, Bound(ls, l))
  }

  /** The bytes of items that start at `at`. */
  function Image(items: seq<Item>, at: nat, ls: map<nat, Label>): Bytes {
    if items == [] then [] else ItemBytes(items[0], at, ls) + Image(items[1..], at + ItemSize(items[0]), ls)
  }

  /** Where the next item would start. */
  function End(items: seq<Item>, at: nat): nat {
    if items == [] then at else End(items[1..], at + ItemSize(items[0]))
  }

  /** The fields that refer to label `l`. */
  function Sites(items: seq<Item>, at: nat, l: nat): seq<nat> {
    if items == [] then []
    else
      var it := items[0];
      (if it.ToLabel? && it.target
           == l then [at + |OpBytes(it.kind)|] else []) + Sites(items[1..], at + ItemSize(it), l)
  }

  lemma FieldLength(field: nat, bound: int)
    ensures |FieldBytes(field, bound)| == 4
  {
    LittleLength((if bound >= 0 then bound - (field + 4) else 0) % TWO32, 4);
  }

  lemma ItemLength(it: Item, at: nat, ls: map<nat, Label>)
    ensures |ItemBytes(it, at, ls)| == ItemSize(it)
  {
    if it.ToLabel? { FieldLength(at + |OpBytes(it.kind)|, Bound(ls, it.target)); }
  }

  lemma {:induction false} ImageLength(items: seq<Item>, at: nat, ls: map<nat, Label>)
    ensures at + |Image(items, at, ls)| == End(items, at)
  {
    hide ItemBytes, ItemSize;
    if items != [] {
      ItemLength(items[0], at, ls);
      ImageLength(items[1..], at + ItemSize(items[0]), ls);
    }
  }

  lemma {:induction false} ImageCat(a: seq<Item>, b: seq<Item>, at: nat, ls: map<nat, Label>)
    ensures Image(a + b, at, ls) == Image(a, at, ls) + Image(b, End(a, at), ls)
  {
    hide ItemBytes, ItemSize;
    if a == [] {
      assert a + b == b;
    } else {
      assert (a + b)[0] == a[0] && (a + b)[1..] == a[1..] + b;
      ImageCat(a[1..], b, at + ItemSize(a[0]), ls);
    }
  }

  lemma {:induction false} SitesCat(a: seq<Item>, b: seq<Item>, at: nat, l: nat)
    ensures Sites(a + b, at, l) == Sites(a, at, l) + Sites(b, End(a, at), l)
  {
    hide ItemSize, OpBytes;
    if a == [] {
      assert a + b == b;
    } else {
      assert (a + b)[0] == a[0] && (a + b)[1..] == a[1..] + b;
      SitesCat(a[1..], b, at + ItemSize(a[0]), l);
    }
  }

  function NewSites(it: Item, at: nat, l: nat): seq<nat> {
    if it.ToLabel? && it.target == l then [at + |OpBytes(it.kind)|] else []
  }

  lemma OneItem(it: Item, at: nat, ls: map<nat, Label>, l: nat)
    ensures Image([it], at, ls) == ItemBytes(it, at, ls) && End([it], at) == at + ItemSize(it)
    ensures Sites([it], at, l) == NewSites(it, at, l)
  {
    hide ItemBytes, ItemSize, OpBytes;
    assert [it][1..] == [];
  }

  lemma ItemSame(it: Item, at: nat, ls: map<nat, Label>, ms: map<nat, Label>)
    requires forall l :: Bound(ls, l) == Bound(ms, l)
    ensures ItemBytes(it, at, ls) == ItemBytes(it, at, ms)
  {
  }

  /** Labels that no item refers to do not matter. */
  lemma {:induction false} ImageSame(items: seq<Item>, at: nat, ls: map<nat, Label>, ms: map<nat, Label>)
    requires forall l :: Bound(ls, l) == Bound(ms, l)
    ensures Image(items, at, ls) == Image(items, at, ms)
  {
    hide ItemBytes, ItemSize;
    if items != [] {
      ItemSame(items[0], at, ls, ms);
      ImageSame(items[1..], at + ItemSize(items[0]), ls, ms);
    }
  }

  // ---------------------------------------------------------------- patching

  function Patch(buf: Bytes, at: nat, target: nat): Bytes
    requires at + 4 <= |buf|
  {
    buf[..at] + Rel32(target - (at + 4)) + buf[at + 4..]
  }

  predicate Inside(sites: seq<nat>, n: nat) { forall i :: 0 <= i < |sites| ==> sites[i] + 4 <= n }

  function PatchAll(buf: Bytes, sites: seq<nat>, target: nat): (b: Bytes)
    requires Inside(sites, |buf|)
    ensures |b| == |buf|
    decreases |sites|
  {
    if sites == [] then buf
    else
      LittleLength((target - (sites[0] + 4)) % TWO32, 4);
      PatchAll(Patch(buf, sites[0], target), sites[1..], target)
  }

  lemma {:induction false} SitesInside(items: seq<Item>, at: nat, l: nat)
    ensures forall i :: 0 <= i < |Sites(items, at, l)| ==>
        at <= Sites(items, at, l)[i] && Sites(items, at, l)[i] + 4 <= End(items, at)
    ensures End(items, at) >= at
  {
    hide Encode;
    if items != [] { SitesInside(items[1..], at + ItemSize(items[0]), l); }
  }

  lemma PatchField(pre: Bytes, field: Bytes, post: Bytes, target: nat)
    requires |field| == 4
    ensures Patch(pre + field + post, |pre|, target) == pre + Rel32(target - (|pre| + 4)) + post
  {
    var b := pre + field + post;
    assert b[..|pre|] == pre && b[|pre| + 4..] == post;
  }

  /** Binding a label: once its waiting fields are patched, the bytes are those of the bound label. */
  lemma {:induction false} BindPatches(pre: Bytes, items: seq<Item>, ls: map<nat, Label>, l: nat, target: nat,
                                       post: Bytes)
    requires Bound(ls, l) < 0
    ensures var at := |pre|;
      var ms := ls[l := Label(target, [])];
      var buf := pre + Image(items, at, ls) + post;
      && Inside(Sites(items, at, l), |buf|)
      && PatchAll(buf, Sites(items, at, l), target) == pre + Image(items, at, ms) + post
    decreases |items|
  {
    hide Encode, FieldBytes, Rel32, Image, Sites, PatchAll, Patch, ItemBytes, ItemSize, Inside, OpBytes;
    var at := |pre|;
    var ms := ls[l := Label(target, [])];
    SitesFit(items, pre, ls, l, post);
    if items == [] {
      NoItems(at, ls, ms, l, pre + post, target);
      assert pre + [] + post == pre + post;
    } else {
      var it := items[0];
      var next := at + ItemSize(it);
      var rest := Image(items[1..], next, ls);
      var buf := pre + Image(items, at, ls) + post;
      FirstItem(items, at, ls, l);
      FirstItem(items, at, ms, l);
      ItemLength(it, at, ms);
      BindPatches(pre + ItemBytes(it, at, ms), items[1..], ls, l, target, post);
      assert pre + Image(items, at, ms) + post == pre + ItemBytes(it, at, ms) + Image(items[1..], next, ms) + post;
      assert buf == pre + ItemBytes(it, at, ls) + (rest + post);
      assert pre + ItemBytes(it, at, ms) + rest + post == pre + ItemBytes(it, at, ms) + (rest + post);
      if it.ToLabel? && it.target == l {
        FirstPatched(pre, it, ls, l, target, rest + post);
        PatchFirst(buf, Sites(items, at, l), target);
      } else {
        OtherItem(it, at, ls, l, target);
      }
    }
  }

  lemma NoItems(at: nat, ls: map<nat, Label>, ms: map<nat, Label>, l: nat, buf: Bytes, target: nat)
    ensures Image([], at, ls) == [] == Image([], at, ms) && Sites([], at, l) == [] && PatchAll(buf, [], target) == buf
  {
  }

  lemma SitesFit(items: seq<Item>, pre: Bytes, ls: map<nat, Label>, l: nat, post: Bytes)
    ensures Inside(Sites(items, |pre|, l), |pre + Image(items, |pre|, ls) + post|)
  {
    SitesInside(items, |pre|, l);
    ImageLength(items, |pre|, ls);
  }

  lemma FirstItem(items: seq<Item>, at: nat, ls: map<nat, Label>, l: nat)
    requires items != []
    ensures var it := items[0];
      && Image(items, at, ls) == ItemBytes(it, at, ls) + Image(items[1..], at + ItemSize(it), ls)
      && var rest := Sites(items[1..], at + ItemSize(it), l);
         if it.ToLabel? && it.target == l then Sites(items, at, l) != []
             && Sites(items, at, l)[0] == at + |OpBytes(it.kind)| && Sites(items, at, l)[1..] == rest
         else Sites(items, at, l) == rest
  {
    hide ItemBytes, ItemSize, OpBytes;
  }

  lemma OtherItem(it: Item, at: nat, ls: map<nat, Label>, l: nat, target: nat)
    requires !(it.ToLabel? && it.target == l)
    ensures ItemBytes(it, at, ls[l := Label(target, [])]) == ItemBytes(it, at, ls)
  {
    hide Encode, Rel32;
  }

  /** The first waiting field, patched. */
  lemma FirstPatched(pre: Bytes, it: Item, ls: map<nat, Label>, l: nat, target: nat, post: Bytes)
    requires it.ToLabel? && it.target == l && Bound(ls, l) < 0
    ensures var at := |pre|;
      var site := at + |OpBytes(it.kind)|;
      && site + 4 <= |pre + ItemBytes(it, at, ls) + post|
      && Patch(pre + ItemBytes(it, at, ls) + post, site, target)
           == pre + ItemBytes(it, at, ls[l := Label(target, [])]) + post
  {
    hide Encode, FieldBytes, Rel32, OpBytes, Patch;
    var op := pre + OpBytes(it.kind);
    var field := FieldBytes(|op|, -1);
    FieldLength(|op|, -1);
    UnboundField(|op|, Bound(ls, l), target);
    assert pre + ItemBytes(it, |pre|, ls) + post == op + field + post;
    PatchField(op, field, post, target);
    assert pre + (OpBytes(it.kind) + Rel32(target - (|op| + 4))) + post == op + Rel32(target - (|op| + 4)) + post;
  }

  lemma UnboundField(field: nat, bound: int, target: nat)
    requires bound < 0
    ensures FieldBytes(field, bound) == FieldBytes(field, -1)
        && FieldBytes(field, target) == Rel32(target - (field + 4))
  {
  }

  lemma NoPatches(buf: Bytes, target: nat)
    ensures Inside([], |buf|) && PatchAll(buf, [], target) == buf
  {
  }

  lemma FirstInside(sites: seq<nat>, n: nat)
    requires sites != [] && Inside(sites, n)
    ensures sites[0] + 4 <= n && Inside(sites[1..], n)
  {
  }

  lemma PatchFirst(buf: Bytes, sites: seq<nat>, target: nat)
    requires sites != [] && Inside(sites, |buf|)
    ensures Inside(sites[1..], |Patch(buf, sites[0], target)|)
    ensures PatchAll(buf, sites, target) == PatchAll(Patch(buf, sites[0], target), sites[1..], target)
  {
    LittleLength((target - (sites[0] + 4)) % TWO32, 4);
  }

  // ---------------------------------------------------------------- bytes, labels and items

  /** The bytes are the items' image; an unbound label knows the fields that wait for it, a bound one where
      it stands. */
  ghost predicate Agree(buf: Bytes, ls: map<nat, Label>, items: seq<Item>, places: map<nat, nat>) {
    buf == Image(items, 0, ls) && Awaited(ls, items) && Settled(ls, items, places)
  }

  ghost predicate Awaited(ls: map<nat, Label>, items: seq<Item>) {
    forall l: nat :: Bound(ls, l) < 0 ==> Patches(ls, l) == Sites(items, 0, l)
  }

  ghost predicate Settled(ls: map<nat, Label>, items: seq<Item>, places: map<nat, nat>) {
    forall l: nat :: Bound(ls, l) >= 0 ==>
      Patches(ls, l) == [] && l in places && places[l] <= |items| && Bound(ls, l) == End(items[..places[l]], 0)
  }

  /** Patching the fields that wait for a label binds it at the end. */
  lemma BoundHere(buf: Bytes, ls: map<nat, Label>, items: seq<Item>, places: map<nat, nat>, l: nat)
    requires Agree(buf, ls, items, places) && Bound(ls, l) < 0
    ensures Inside(Patches(ls, l), |buf|)
    ensures Agree(PatchAll(buf, Patches(ls, l), |buf|), ls[l := Label(|buf|, [])], items, places[l := |items|])
  {
    hide Image, Sites, End, PatchAll, Inside, Settled;
    var ms := ls[l := Label(|buf|, [])];
    ImageLength(items, 0, ls);
    BindPatches([], items, ls, l, |buf|, []);
    assert [] + buf + [] == buf && [] + Image(items, 0, ms) + [] == Image(items, 0, ms);
    SettledHere(ls, items, places, l, |buf|);
  }

  lemma SettledHere(ls: map<nat, Label>, items: seq<Item>, places: map<nat, nat>, l: nat, target: nat)
    requires Settled(ls, items, places) && target == End(items, 0)
    ensures Settled(ls[l := Label(target, [])], items, places[l := |items|])
  {
    hide End;
    assert items[..|items|] == items;
    var ms, there := ls[l := Label(target, [])], places[l := |items|];
    forall x: nat | Bound(ms, x) >= 0
      ensures Patches(ms, x) == [] && x in there && there[x] <= |items| && Bound(ms, x) == End(items[..there[x]], 0)
    {
      if x != l { assert Bound(ms, x) == Bound(ls, x) && Patches(ms, x) == Patches(ls, x); }
    }
  }

  // ---------------------------------------------------------------- linked programs

  /** The instruction an item stands for at `at`. */
  function Linked(it: Item, at: nat, ls: map<nat, Label>): Instr {
    match it
    case Plain(i) => i
    case ToLabel(k, l) => JumpInstr(k, Bound(ls, l) - (at + ItemSize(it)))
  }

  function LinkedAll(items: seq<Item>, at: nat, ls: map<nat, Label>): seq<Instr> {
    if items == [] then [] else [Linked(items[0], at, ls)] + LinkedAll(items[1..], at + ItemSize(items[0]), ls)
  }

  /** Operands fit, labels used are bound, addresses fit 31 bits. */
  predicate Linkable(items: seq<Item>, ls: map<nat, Label>, size: nat) {
    && size < 0x8000_0000
    && (forall it :: it in items && it.Plain? ==> Legal(it.i))
    && forall it :: it in items && it.ToLabel? ==>
        0 <= Bound(ls, it.target) <= size && (it.kind.JccTo? ==> it.kind.c < 16)
  }

  lemma {:induction false} ImageIsCode(items: seq<Item>, at: nat, ls: map<nat, Label>, size: nat)
    requires Linkable(items, ls, size) && End(items, at) <= size
    ensures Image(items, at, ls) == EncodeAll(LinkedAll(items, at, ls))
    ensures forall i :: i in LinkedAll(items, at, ls) ==> Legal(i)
    ensures |LinkedAll(items, at, ls)| == |items|
  {
    hide Encode, Rel32;
    if items != [] {
      var it := items[0];
      SitesInside(items[1..], at + ItemSize(it), 0);
      assert it in items;
      assert forall x :: x in items[1..] ==> x in items;
      ImageIsCode(items[1..], at + ItemSize(it), ls, size);
      ItemIsCode(it, at, ls, size);
      var all := LinkedAll(items, at, ls);
      assert all[1..] == LinkedAll(items[1..], at + ItemSize(it), ls);
    }
  }

  lemma ItemIsCode(it: Item, at: nat, ls: map<nat, Label>, size: nat)
    requires Linkable([it], ls, size) && at + ItemSize(it) <= size
    ensures ItemBytes(it, at, ls) == Encode(Linked(it, at, ls)) && Legal(Linked(it, at, ls))
  {
    hide Little;
    assert it in [it];
  }

  /** The main result: decoding the buffer gives exactly the instructions emitted, and each jump leads to
      the address of its label, whether it came before the label was bound or after. */
  lemma BufferDecodes(items: seq<Item>, ls: map<nat, Label>)
    requires Linkable(items, ls, End(items, 0))
    ensures DecodeAll(Image(items, 0, ls), |items|) == Some(LinkedAll(items, 0, ls))
  {
    ImageIsCode(items, 0, ls, End(items, 0));
    ProgramReads(LinkedAll(items, 0, ls));
  }

  /** Item `k`, where it stands, and the jump it stands for. */
  lemma {:induction false} LinkedAt(items: seq<Item>, at: nat, ls: map<nat, Label>, k: nat)
    requires k < |items|
    ensures k < |LinkedAll(items, at, ls)| && LinkedAll(items, at, ls)[k] == Linked(items[k], End(items[..k], at), ls)
    ensures items[k].ToLabel? ==>
      LinkedAll(items, at, ls)[k] == JumpInstr(items[k].kind, Bound(ls, items[k].target) - End(items[..k + 1], at))
    decreases k
  {
    hide ItemSize, JumpInstr;
    if k > 0 {
      LinkedAt(items[1..], at + ItemSize(items[0]), ls, k - 1);
      assert items[..k][0] == items[0] && items[..k][1..] == items[1..][..k - 1];
      assert items[..k + 1][0] == items[0] && items[..k + 1][1..] == items[1..][..k];
    } else {
      assert items[..0] == [] && items[..1] == [items[0]];
      assert [items[0]][1..] == [];
    }
  }

  // ---------------------------------------------------------------- the class

  class Asm {
    var buf: Bytes
    var labels: map<nat, Label>
    /** What was emitted, and how many items stood before each label when it was bound. */
    ghost var items: seq<Item>
    ghost var places: map<nat, nat>

    ghost predicate Valid()
      reads this
    {
      Agree(buf, labels, items, places)
    }

    constructor ()
      ensures Valid() && buf == [] && items == []
    {
      buf, labels := [], map[];
      items, places := [], map[];
    }

    // -------------------------------------------------------------- raw emission

    method U8(v: nat)
      modifies this`buf
      ensures buf == old(buf) + [v]
    {
      buf := buf + [v];
    }

    /** `n` bytes, the low one first. */
    method Ubytes(v: nat, n: nat)
      modifies this`buf
      ensures buf == old(buf) + Little(v, n)
    {
      var i, left := 0, v;
      while i < n
        invariant i <= n && old(buf) + Little(v, n) == buf + Little(left, n - i)
      {
        U8(left % 256);
        left := left / 256;
        i := i + 1;
      }
    }

    method U32(v: int)
      modifies this`buf
      ensures buf == old(buf) + Rel32(v)
    {
      Ubytes(v % TWO32, 4);
    }

    method Rex(w: bool, reg: Reg, rm: Reg)
      modifies this`buf
      ensures buf == old(buf) + RexBytes(w, reg, rm)
    {
      var r := 0x40 + (if w then 8 else 0) + 4 * (reg / 8) + rm / 8;
      if r != 0x40 { U8(r); }
    }

    method ModrmReg(reg: Reg, rm: Reg)
      modifies this`buf
      ensures buf == old(buf) + ModRmReg(reg, rm)
    {
      U8(0xC0 + 8 * (reg % 8) + rm % 8);
    }

    method ModrmMem(reg: Reg, base: Reg, disp: int)
      modifies this`buf
      ensures buf == old(buf) + ModRmMem(reg, base, disp)
    {
      hide Little;
      var b := base % 8;
      var mod := if disp == 0 && b != 5 then 0 else if -128 <= disp <= 127 then 1 else 2;
      U8(64 * mod + 8 * (reg % 8) + b);
      if b == 4 { U8(0x24); }
      if mod == 1 { U8(disp % 256); }
      else if mod == 2 { U32(disp); }
    }

    method AluRR(op: nat, d: Reg, s: Reg)
      modifies this`buf
      ensures buf == old(buf) + (RexBytes(true, s, d) + [op] + ModRmReg(s, d))
    {
      Rex(true, s, d); U8(op); ModrmReg(s, d);
    }

    method AluRI(digit: Reg, d: Reg, v: int)
      modifies this`buf
      ensures buf == old(buf) + (RexBytes(true, 0, d) + [0x81] + ModRmReg(digit, d) + Rel32(v))
    {
      Rex(true, 0, d); U8(0x81); ModrmReg(digit, d); U32(v);
    }

    method ShiftRI(digit: Reg, d: Reg, n: nat)
      modifies this`buf
      ensures buf == old(buf) + (RexBytes(true, 0, d) + [0xC1] + ModRmReg(digit, d) + [n])
    {
      Rex(true, 0, d); U8(0xC1); ModrmReg(digit, d); U8(n);
    }

    /** Unary operations on a register, told apart by the digit. */
    method Group3(digit: Reg, d: Reg)
      modifies this`buf
      ensures buf == old(buf) + (RexBytes(true, 0, d) + [0xF7] + ModRmReg(digit, d))
    {
      Rex(true, 0, d); U8(0xF7); ModrmReg(digit, d);
    }

    method Stack(op: nat, d: Reg)
      modifies this`buf
      ensures buf == old(buf) + ((if d >= 8 then [0x41] else []) + [op + d % 8])
    {
      if d >= 8 { U8(0x41); }
      U8(op + d % 8);
    }

    /** Two-byte opcodes between registers, with a prefix or none. */
    method SseRR(prefix: nat, w: bool, op: nat, reg: Reg, rm: Reg)
      modifies this`buf
      ensures buf == old(buf) + ((if prefix == 0 then [] else [prefix]) + RexBytes(w, reg, rm) + [0x0F,
          op] + ModRmReg(reg, rm))
    {
      if prefix != 0 { U8(prefix); }
      Rex(w, reg, rm); U8(0x0F); U8(op); ModrmReg(reg, rm);
    }

    method SseRM(prefix: nat, w: bool, op: nat, reg: Reg, base: Reg, disp: int)
      modifies this`buf
      ensures buf == old(buf) + ((if prefix == 0 then [] else [prefix]) + RexBytes(w, reg, base) + [0x0F,
          op] + ModRmMem(reg, base, disp))
    {
      hide ModRmMem;
      if prefix != 0 { U8(prefix); }
      Rex(w, reg, base); U8(0x0F); U8(op); ModrmMem(reg, base, disp);
    }

    /** The bytes of one instruction. */
    method Raw(i: Instr)
      requires Legal(i)
      modifies this`buf
      ensures buf == old(buf) + Encode(i)
    {
      if i.MovRM? || i.MovMR? || i.MovzxRM8? || i.MovMI8? || i.MovsdXM? || i.MovsdMX? { RawMemory(i); }
      else if !HasModRm(i) { RawPlain(i); }
      else if i.ImulRR? || i.MovzxR8? || i.SseRR? || i.Xorpd? || i.Ucomisd? || i.Cvtsi2sd? || i.Cvttsd2si?
        || i.MovqRX? || i.MovqXR? {
        RawPair(i);
      } else { RawRegister(i); }
    }

    method RawMemory(i: Instr)
      requires i.MovRM? || i.MovMR? || i.MovzxRM8? || i.MovMI8? || i.MovsdXM? || i.MovsdMX?
      modifies this`buf
      ensures buf == old(buf) + Encode(i)
    {
      hide ModRmMem, RexBytes;
      match i {
        case MovRM(d, b, disp) => Rex(true, d, b); U8(0x8B); ModrmMem(d, b, disp);
        case MovMR(b, disp, s) => Rex(true, s, b); U8(0x89); ModrmMem(s, b, disp);
        case MovzxRM8(d, b, disp) => SseRM(0, true, 0xB6, d, b, disp);
        case MovMI8(b, disp, n) => Rex(false, 0, b); U8(0xC6); ModrmMem(0, b, disp); U8(n);
        case MovsdXM(d, b, disp) => SseRM(0xF2, false, 0x10, d, b, disp);
        case MovsdMX(b, disp, s) => SseRM(0xF2, false, 0x11, s, b, disp);
      }
    }

    method RawPlain(i: Instr)
      requires !HasModRm(i)
      modifies this`buf
      ensures buf == old(buf) + Encode(i)
    {
      hide RexBytes, Little, Rel32;
      match i {
        case MovAbs(d, v) => Rex(true, 0, d); U8(0xB8 + d % 8); Ubytes(v, 8);
        case Cqo => U8(0x48); U8(0x99);
        case PushR(d) => Stack(0x50, d);
        case PopR(d) => Stack(0x58, d);
        case Ret => U8(0xC3);
        case Jmp(rel) => RawJump(JmpTo, rel);
        case Jcc(c, rel) => RawJump(JccTo(c), rel);
        case CallRel(rel) => RawJump(CallTo, rel);
      }
    }

    method RawJump(k: JumpKind, rel: int)
      modifies this`buf
      ensures buf == old(buf) + Encode(JumpInstr(k, rel))
    {
      hide Rel32;
      EmitOp(k);
      U32(rel);
    }

    method RawPair(i: Instr)
      requires i.ImulRR? || i.MovzxR8? || i.SseRR? || i.Xorpd? || i.Ucomisd? || i.Cvtsi2sd? || i.Cvttsd2si?
        || i.MovqRX? || i.MovqXR?
      modifies this`buf
      ensures buf == old(buf) + Encode(i)
    {
      hide Encode;
      match i {
        case ImulRR(_, _) => RawPlainPair(i);
        case MovzxR8(_, _) => RawPlainPair(i);
        case SseRR(_, _, _) => RawPlainPair(i);
        case Xorpd(_, _) => RawPlainPair(i);
        case Ucomisd(_, _) => RawPlainPair(i);
        case Cvtsi2sd(_, _) => RawMixedPair(i);
        case Cvttsd2si(_, _) => RawMixedPair(i);
        case MovqRX(_, _) => RawMixedPair(i);
        case MovqXR(_, _) => RawMixedPair(i);
      }
    }

    /** Two registers of one kind. */
    method RawPlainPair(i: Instr)
      requires i.ImulRR? || i.MovzxR8? || i.SseRR? || i.Xorpd? || i.Ucomisd?
      modifies this`buf
      ensures buf == old(buf) + Encode(i)
    {
      hide ModRmReg, RexBytes;
      match i {
        case ImulRR(d, s) => SseRR(0, true, 0xAF, d, s);
        case MovzxR8(d, s) => SseRR(0, true, 0xB6, d, s);
        case SseRR(g, d, s) => SseRR(0xF2, false, SseByte(g), d, s);
        case Xorpd(d, s) => SseRR(0x66, false, 0x57, d, s);
        case Ucomisd(d, s) => SseRR(0x66, false, 0x2E, d, s);
      }
    }

    /** A general register and one for floating point. */
    method RawMixedPair(i: Instr)
      requires i.Cvtsi2sd? || i.Cvttsd2si? || i.MovqRX? || i.MovqXR?
      modifies this`buf
      ensures buf == old(buf) + Encode(i)
    {
      hide ModRmReg, RexBytes;
      match i {
        case Cvtsi2sd(d, s) => SseRR(0xF2, true, 0x2A, d, s);
        case Cvttsd2si(d, s) => SseRR(0xF2, true, 0x2C, d, s);
        case MovqRX(d, s) => SseRR(0x66, true, 0x7E, s, d);
        case MovqXR(d, s) => SseRR(0x66, true, 0x6E, d, s);
      }
    }

    method RawRegister(i: Instr)
      requires Legal(i)
      requires i.MovRR? || i.AluRR? || i.AluRI? || i.ShiftRI? || i.NegR? || i.NotR? || i.IdivR?
        || i.CallR? || i.Setcc? || i.Roundsd?
      modifies this`buf
      ensures buf == old(buf) + Encode(i)
    {
      hide ModRmReg, RexBytes, Rel32;
      match i {
        case MovRR(d, s) => AluRR(0x89, d, s);
        case AluRR(f, d, s) => AluRR(AluByte(f), d, s);
        case AluRI(g, d, v) => AluRI(g, d, v);
        case ShiftRI(g, d, n) => ShiftRI(g, d, n);
        case NegR(d) => Group3(3, d);
        case NotR(d) => Group3(2, d);
        case IdivR(d) => Group3(7, d);
        case CallR(d) => Rex(false, 0, d); U8(0xFF); ModrmReg(2, d);
        case Setcc(c, d) => SetCondition(c, d);
        case Roundsd(d, s, n) => Round(d, s, n);
      }
    }

    method SetCondition(c: nat, d: Reg)
      requires c < 16
      modifies this`buf
      ensures buf == old(buf) + Encode(Setcc(c, d))
    {
      hide ModRmReg;
      ghost var was := buf;
      ghost var rex := if d >= 4 then [0x40 + d / 8] else [];
      if d >= 4 { U8(0x40 + d / 8); }
      assert buf == was + rex;
      U8(0x0F);
      U8(0x90 + c);
      assert buf == was + (rex + [0x0F, 0x90 + c]);
      ModrmReg(0, d);
      assert buf == was + (rex + [0x0F, 0x90 + c] + ModRmReg(0, d));
    }

    method Round(d: Reg, s: Reg, n: nat)
      modifies this`buf
      ensures buf == old(buf) + Encode(Roundsd(d, s, n))
    {
      hide ModRmReg, RexBytes;
      ghost var was := buf;
      U8(0x66);
      Rex(false, d, s);
      U8(0x0F); U8(0x3A); U8(0x0B);
      assert buf == was + ([0x66] + RexBytes(false, d, s) + [0x0F, 0x3A, 0x0B]);
      ModrmReg(d, s);
      assert buf == was + ([0x66] + RexBytes(false, d, s) + [0x0F, 0x3A, 0x0B] + ModRmReg(d, s));
      U8(n);
    }

    // -------------------------------------------------------------- instructions and labels

    method Emit(i: Instr)
      requires Valid() && Legal(i)
      modifies this`buf, this`items
      ensures Valid() && items == old(items) + [Plain(i)]
    {
      hide Encode;
      Appended(Plain(i));
      Raw(i);
      items := items + [Plain(i)];
    }

    /** What one more item changes. */
    lemma Appended(it: Item)
      requires Valid()
      ensures Image(items + [it], 0, labels) == buf + ItemBytes(it, |buf|, labels)
      ensures forall l: nat :: Sites(items + [it], 0, l) == Sites(items, 0, l) + NewSites(it, |buf|, l)
      ensures forall k :: 0 <= k <= |items| ==> (items + [it])[..k] == items[..k]
    {
      hide ItemBytes, OpBytes, Image, Sites, End, NewSites;
      ImageLength(items, 0, labels);
      assert Image(items, 0, labels) == buf && End(items, 0) == |buf|;
      forall l: nat
        ensures Sites(items + [it], 0, l) == Sites(items, 0, l) + NewSites(it, |buf|, l)
      {
        SitesCat(items, [it], 0, l);
        OneItem(it, |buf|, labels, l);
      }
      ImageCat(items, [it], 0, labels);
      OneItem(it, |buf|, labels, 0);
    }

    method JumpTo(k: JumpKind, l: nat)
      requires Valid()
      modifies this
      ensures Valid() && items == old(items) + [ToLabel(k, l)] && places == old(places)
      ensures forall x: nat :: Bound(labels, x) == Bound(old(labels), x)
    {
      hide Rel32, Image, Sites, End, FieldBytes, OpBytes;
      ghost var it := ToLabel(k, l);
      Appended(it);
      EmitOp(k);
      ghost var was := labels;
      Ref(l);
      items := items + [it];
      ImageSame(items, 0, was, labels);
    }

    method EmitOp(k: JumpKind)
      modifies this`buf
      ensures buf == old(buf) + OpBytes(k)
    {
      match k {
        case JmpTo => U8(0xE9);
        case JccTo(c) => U8(0x0F); U8(0x80 + c);
        case CallTo => U8(0xE8);
      }
    }

    /** The field of a jump: the distance if the label is bound, else zeros and a note. */
    method Ref(l: nat)
      modifies this`buf, this`labels
      ensures buf == old(buf) + FieldBytes(|old(buf)|, Bound(old(labels), l))
      ensures labels == if Bound(old(labels), l) >= 0 then old(labels)
                        else old(labels)[l := Label(Bound(old(labels), l), Patches(old(labels), l) + [|old(buf)|])]
    {
      hide Rel32;
      var at := |buf|;
      ghost var was := buf;
      U32(0);
      FieldLength(at, -1);
      if Bound(labels, l) >= 0 {
        assert buf == was + FieldBytes(at, -1) + [];
        PatchField(was, FieldBytes(at, -1), [], Bound(labels, l));
        PatchRel32(at, Bound(labels, l));
        assert was + FieldBytes(at, Bound(labels, l)) + [] == was + FieldBytes(at, Bound(labels, l));
      } else {
        labels := labels[l := Label(Bound(labels, l), Patches(labels, l) + [at])];
      }
    }

    /** Overwrites a field, byte by byte. */
    method PatchRel32(at: nat, target: nat)
      requires at + 4 <= |buf|
      modifies this`buf
      ensures buf == Patch(old(buf), at, target) && |buf| == |old(buf)|
    {
      var rel := (target - (at + 4)) % TWO32;
      LittleLength(rel, 4);
      ghost var was := buf;
      var i: nat, left: nat := 0, rel;
      while i < 4
        invariant i <= 4 && |buf| == |was| && left >= 0
        invariant was[..at] + Little(rel, 4) + was[at + 4..] == buf[..at + i] + Little(left, 4 - i) + was[at + 4..]
        invariant buf[at + i..] == was[at + i..]
      {
        buf := buf[at + i := left % 256];
        left := left / 256;
        i := i + 1;
      }
      assert buf == buf[..at + 4] + Little(left, 0) + buf[at + 4..];
    }

    /** Binds a label here, and patches what was waiting for it. */
    method Bind(l: nat)
      requires Valid() && Bound(labels, l) < 0
      modifies this
      ensures Valid() && items == old(items) && Bound(labels, l) == |buf| == |old(buf)|
      ensures forall x: nat :: x != l ==> Bound(labels, x) == Bound(old(labels), x)
      ensures places == old(places)[l := |items|]
    {
      hide Agree, PatchAll, Patch, Inside;
      var target := |buf|;
      ghost var was := labels;
      var patches := Patches(labels, l);
      BoundHere(buf, labels, items, places, l);
      ghost var done := PatchAll(buf, patches, target);
      var i := 0;
      assert patches[0..] == patches;
      while i < |patches|
        invariant 0 <= i <= |patches| && |buf| == target && labels == was && items == old(items)
            && places == old(places)
        invariant Inside(patches[i..], |buf|) && PatchAll(buf, patches[i..], target) == done
      {
        assert patches[i..][0] == patches[i] && patches[i..][1..] == patches[i + 1..];
        PatchFirst(buf, patches[i..], target);
        FirstInside(patches[i..], |buf|);
        PatchRel32(patches[i], target);
        i := i + 1;
      }
      assert patches[i..] == [];
      NoPatches(buf, target);
      labels := labels[l := Label(target, [])];
      places := places[l := |items|];
    }
  }
}
