/** The bytes of a function body: what is pushed for each token, where the call
    operands are, and what a patched body decodes to. */
module WasmBytes {
  import opened Rings
  import opened Ir
  import W = Wasm
  import opened WasmEmit
  import opened Leb
  import opened Patching

  // ---- the bytes of a token ----

  /** Five bytes in place of an index. */
  type Operand = s: seq<Byte> | |s| == 5 witness [0, 0, 0, 0, 0]

  const OPEN: Operand := [0, 0, 0, 0, 0]

  predicate IsCall(i: W.Instr) {
    i.CallWord? || i.CallTrap?
  }

  /** Instructions that open blocks are tokens of their own. */
  predicate Flat(t: Token) {
    t.Plain? ==> !t.instr.Block? && !t.instr.Loop? && !t.instr.If?
  }

  function RelOpcode(k: CmpKind): Byte {
    match k
    case Eq => 0x51
    case Ne => 0x52
    case Lt => 0x53
    case Gt => 0x55
    case Le => 0x57
    case Ge => 0x59
  }

  function ArithOpcode(k: ArithKind): Byte {
    match k
    case Add => 0x7c
    case Sub => 0x7d
    case Mul => 0x7e
  }

  function Opcode(i: W.Instr): Byte {
    match i
    case Unreachable => 0x00
    case Block(_) => 0x02
    case Loop(_) => 0x03
    case If(_) => 0x04
    case Br(_) => 0x0c
    case BrTable(_, _) => 0x0e
    case Return => 0x0f
    case CallWord(_) => 0x10
    case CallTrap => 0x10
    case Drop => 0x1a
    case Select => 0x1b
    case LocalGet(_) => 0x20
    case LocalSet(_) => 0x21
    case I32Const(_) => 0x41
    case I64Const(_) => 0x42
    case I32Eqz => 0x45
    case I64Eqz => 0x50
    case I64Rel(k) => RelOpcode(k)
    case I64Arith(k) => ArithOpcode(k)
    case I64And => 0x83
    case I64Or => 0x84
    case I32WrapI64 => 0xa7
    case I64ExtendI32U => 0xad
  }

  /** A 64-bit word as the signed number that is encoded for it. */
  function Signed(v: int): int {
    if v < TWO64 / 2 then v else v - TWO64
  }

  function Ulebs(vs: seq<nat>): seq<Byte> {
    if vs == [] then [] else Uleb(vs[0]) + Ulebs(vs[1..])
  }

  function Immediates(i: W.Instr, fill: W.Instr -> Operand): seq<Byte> {
    match i
    case I64Const(v) => Sleb(Signed(v))
    case I32Const(v) => Sleb(v)
    case LocalGet(k) => Uleb(k)
    case LocalSet(k) => Uleb(k)
    case Br(d) => Uleb(d)
    case BrTable(ts, d) => Uleb(|ts|) + (Ulebs(ts) + Uleb(d))
    case CallWord(_) => fill(i)
    case CallTrap => fill(i)
    case _ => []
  }

  /** Blocks have the empty type. */
  function Bytes(t: Token, fill: W.Instr -> Operand): (bs: seq<Byte>)
    ensures bs != []
  {
    match t
    case OpenBlock => [0x02, 0x40]
    case OpenLoop => [0x03, 0x40]
    case OpenIf => [0x04, 0x40]
    case End => [0x0b]
    case Plain(i) => [Opcode(i)] + Immediates(i, fill)
  }

  function Stream(ts: seq<Token>, fill: W.Instr -> Operand): seq<Byte> {
    if ts == [] then [] else Bytes(ts[0], fill) + Stream(ts[1..], fill)
  }

  function Open(i: W.Instr): Operand {
    OPEN
  }

  // ---- where the operands are ----

  function CalleeOf(i: W.Instr, spell: nat -> string): Callee
    requires IsCall(i)
  {
    if i.CallWord? then ToWord(spell(i.name)) else ToImport(IMPORT_TRAP)
  }

  function SitesOf(t: Token, at: nat, spell: nat -> string): seq<Site> {
    if t.Plain? && IsCall(t.instr) then [Site(at + 1, CalleeOf(t.instr, spell))] else []
  }

  function Sites(ts: seq<Token>, at: nat, spell: nat -> string): seq<Site> {
    if ts == [] then [] else SitesOf(ts[0], at, spell) + Sites(ts[1..], at + |Bytes(ts[0], Open)|, spell)
  }

  lemma CallBytes(t: Token, fill: W.Instr -> Operand)
    requires t.Plain? && IsCall(t.instr)
    ensures Bytes(t, fill) == [0x10] + fill(t.instr) && |Bytes(t, fill)| == 1 + CALL_LEB_WIDTH
  {
  }

  lemma OtherBytes(t: Token, fill: W.Instr -> Operand)
    requires !(t.Plain? && IsCall(t.instr))
    ensures Bytes(t, fill) == Bytes(t, Open)
  {
  }

  /** The recorded operands lie in the body, in order and apart. */
  lemma {:induction false} SitesAreSpaced(ts: seq<Token>, at: nat, spell: nat -> string)
    ensures Spaced(Sites(ts, at, spell), at + |Stream(ts, Open)|)
    ensures forall i :: 0 <= i < |Sites(ts, at, spell)| ==> at < Sites(ts, at, spell)[i].off
    decreases |ts|
  {
    hide Bytes;
    if ts != [] {
      var t, next := ts[0], at + |Bytes(ts[0], Open)|;
      SitesAreSpaced(ts[1..], next, spell);
      var rest, all := Sites(ts[1..], next, spell), Sites(ts, at, spell);
      if t.Plain? && IsCall(t.instr) {
        CallBytes(t, Open);
        var first := Site(at + 1, CalleeOf(t.instr, spell));
        assert all == [first] + rest;
        forall i, j | 0 <= i < j < |all| ensures all[i].off + CALL_LEB_WIDTH <= all[j].off {
          assert all[j] == rest[j - 1];
          if i > 0 {
            assert all[i] == rest[i - 1];
          }
        }
      } else {
        assert all == rest;
      }
    }
  }

  /** Every callee of the tokens is one the emission recorded. */
  ghost predicate CallsRecorded(u: Usage, ts: seq<Token>, spell: nat -> string)
    requires WellFormed(u)
  {
    forall k {:trigger ts[k]} :: 0 <= k < |ts| && ts[k].Plain? && IsCall(ts[k].instr) ==> Recorded(u, CalleeOf(ts[k].instr, spell))
  }

  lemma RecordedTail(u: Usage, ts: seq<Token>, spell: nat -> string)
    requires WellFormed(u) && CallsRecorded(u, ts, spell) && ts != []
    ensures CallsRecorded(u, ts[1..], spell)
    ensures ts[0].Plain? && IsCall(ts[0].instr) ==> Recorded(u, CalleeOf(ts[0].instr, spell))
  {
    hide Recorded;
    hide IsCall;
    forall k | 0 <= k < |ts[1..]| && ts[1..][k].Plain? && IsCall(ts[1..][k].instr)
      ensures Recorded(u, CalleeOf(ts[1..][k].instr, spell))
    {
      assert ts[1..][k] == ts[k + 1];
    }
  }

  lemma {:induction false} SitesRecorded(u: Usage, ts: seq<Token>, at: nat, spell: nat -> string)
    requires WellFormed(u) && CallsRecorded(u, ts, spell)
    ensures AllRecorded(u, Sites(ts, at, spell))
    decreases |ts|
  {
    hide Bytes;
    if ts != [] {
      RecordedTail(u, ts, spell);
      SitesRecorded(u, ts[1..], at + |Bytes(ts[0], Open)|, spell);
    }
  }

  // ---- the emission ----

  method EmitTargets(out: seq<Byte>, vs: seq<nat>) returns (r: seq<Byte>)
    ensures r == out + Ulebs(vs)
  {
    var k := 0;
    r := out;
    assert vs[0..] == vs;
    while k < |vs|
      invariant k <= |vs| && r + Ulebs(vs[k..]) == out + Ulebs(vs)
    {
      ghost var before := r;
      assert vs[k..][1..] == vs[k + 1..];
      r := EmitUleb(r, vs[k]);
      assert before + (Uleb(vs[k]) + Ulebs(vs[k + 1..])) == r + Ulebs(vs[k + 1..]);
      k := k + 1;
    }
  }

  method EmitImmediates(out: seq<Byte>, i: W.Instr) returns (r: seq<Byte>)
    requires !IsCall(i)
    ensures r == out + Immediates(i, Open)
  {
    r := out;
    if i.I64Const? {
      r := EmitSleb(r, Signed(i.v));
    } else if i.I32Const? {
      r := EmitSleb(r, i.v);
    } else if i.LocalGet? || i.LocalSet? {
      r := EmitUleb(r, i.i);
    } else if i.Br? {
      r := EmitUleb(r, i.depth);
    } else if i.BrTable? {
      r := EmitUleb(r, |i.targets|);
      r := EmitTargets(r, i.targets);
      r := EmitUleb(r, i.fallback);
      assert r == out + (Uleb(|i.targets|) + (Ulebs(i.targets) + Uleb(i.fallback)));
    }
  }

  /** One instruction: the opcode, then its immediates; the operand of a call is
      left open and its place recorded. */
  method EmitInstr(out: seq<Byte>, sites: seq<Site>, i: W.Instr, spell: nat -> string) returns (r: seq<Byte>, s: seq<Site>)
    ensures r == out + Bytes(Plain(i), Open) && s == sites + SitesOf(Plain(i), |out|, spell)
  {
    hide Immediates;
    r, s := out + [Opcode(i)], sites;
    if IsCall(i) {
      CallBytes(Plain(i), Open);
      s := s + [Site(|r|, CalleeOf(i, spell))];
      r := r + OPEN;
      assert r == out + ([0x10] + OPEN);
    } else {
      r := EmitImmediates(r, i);
      assert r == out + ([Opcode(i)] + Immediates(i, Open));
    }
  }

  lemma Onward(ts: seq<Token>, k: nat, out: seq<Byte>, sites: seq<Site>, spell: nat -> string)
    requires k < |ts|
    ensures out + Stream(ts[k..], Open) == (out + Bytes(ts[k], Open)) + Stream(ts[k + 1..], Open)
    ensures sites + Sites(ts[k..], |out|, spell) ==
      (sites + SitesOf(ts[k], |out|, spell)) + Sites(ts[k + 1..], |out + Bytes(ts[k], Open)|, spell)
  {
    hide Bytes;
    hide SitesOf;
    assert ts[k..][1..] == ts[k + 1..];
  }

  /** The body of a function: its tokens' bytes, and the calls in it. */
  method EmitBytes(ts: seq<Token>, spell: nat -> string) returns (out: seq<Byte>, sites: seq<Site>)
    ensures out == Stream(ts, Open) && sites == Sites(ts, 0, spell)
  {
    hide Bytes;
    hide SitesOf;
    hide Sites;
    hide Stream;
    out, sites := [], [];
    var k := 0;
    assert ts[0..] == ts;
    while k < |ts|
      invariant k <= |ts| && out + Stream(ts[k..], Open) == Stream(ts, Open)
      invariant sites + Sites(ts[k..], |out|, spell) == Sites(ts, 0, spell)
    {
      Onward(ts, k, out, sites, spell);
      out, sites := EmitToken(out, sites, ts[k], spell);
      k := k + 1;
    }
    NothingLeft(ts[k..], |out|, spell);
  }

  lemma NothingLeft(ts: seq<Token>, at: nat, spell: nat -> string)
    requires ts == []
    ensures Stream(ts, Open) == [] && Sites(ts, at, spell) == []
  {
  }

  method EmitToken(out: seq<Byte>, sites: seq<Site>, t: Token, spell: nat -> string) returns (r: seq<Byte>, s: seq<Site>)
    ensures r == out + Bytes(t, Open) && s == sites + SitesOf(t, |out|, spell)
  {
    r, s := out, sites;
    match t {
      case OpenBlock => r := out + [0x02, 0x40];
      case OpenLoop => r := out + [0x03, 0x40];
      case OpenIf => r := out + [0x04, 0x40];
      case End => r := out + [0x0b];
      case Plain(i) => r, s := EmitInstr(out, sites, i, spell);
    }
  }

  // ---- the patched body ----

  /** The index a call instruction is patched to. */
  function IndexFor(u: Usage, spell: nat -> string, i: W.Instr): nat
    requires WellFormed(u)
  {
    if !IsCall(i) then 0 else match IndexOf(u, CalleeOf(i, spell)) case Some(k) => k case None => 0
  }

  function Filled(u: Usage, spell: nat -> string): W.Instr -> Operand
    requires WellFormed(u)
  {
    (i: W.Instr) => Padded(IndexFor(u, spell, i), CALL_LEB_WIDTH)
  }

  /** `q` is `p` from `at` to `to` but for the operands of the sites, which hold
      the indices. */
  ghost predicate Differs(u: Usage, sites: seq<Site>, p: seq<Byte>, q: seq<Byte>, at: nat, to: nat)
    requires WellFormed(u) && AllRecorded(u, sites)
  {
    && |p| == |q| && to <= |p|
    && (forall i :: 0 <= i < |sites| ==> Stands(u, q, sites[i]))
    && (forall b {:trigger q[b]} :: at <= b < to && !InOperand(sites, |sites|, b) ==> q[b] == p[b])
  }

  /** The same of the tokens behind the first. */
  lemma DiffersBehind(u: Usage, t: Token, at: nat, rest: seq<Site>, spell: nat -> string, p: seq<Byte>, q: seq<Byte>, to: nat)
    requires WellFormed(u) && AllRecorded(u, SitesOf(t, at, spell) + rest) && AllRecorded(u, rest)
    requires Differs(u, SitesOf(t, at, spell) + rest, p, q, at, to)
    ensures Differs(u, rest, p, q, at + |Bytes(t, Open)|, to)
  {
    hide Bytes;
    hide SitesOf;
    hide Stands;
    hide InOperand;
    var next, head := at + |Bytes(t, Open)|, SitesOf(t, at, spell);
    var all := head + rest;
    forall i | 0 <= i < |rest| ensures Stands(u, q, rest[i]) {
      assert rest[i] == all[|head| + i];
    }
    forall b | next <= b < to && !InOperand(rest, |rest|, b) ensures q[b] == p[b] {
      HeadIsBefore(t, at, rest, spell, b);
    }
  }

  lemma Unfold(ts: seq<Token>, at: nat, spell: nat -> string, fill: W.Instr -> Operand)
    requires ts != []
    ensures Stream(ts, fill) == Bytes(ts[0], fill) + Stream(ts[1..], fill)
    ensures Sites(ts, at, spell) == SitesOf(ts[0], at, spell) + Sites(ts[1..], at + |Bytes(ts[0], Open)|, spell)
  {
  }

  /** Then a stream that stood open in `p` stands filled in `q`. */
  lemma {:induction false} PatchedStands(u: Usage, ts: seq<Token>, at: nat, spell: nat -> string, p: seq<Byte>, q: seq<Byte>)
    requires WellFormed(u) && CallsRecorded(u, ts, spell) && StandsAt(p, at, Stream(ts, Open))
    requires AllRecorded(u, Sites(ts, at, spell)) && Differs(u, Sites(ts, at, spell), p, q, at, at + |Stream(ts, Open)|)
    ensures StandsAt(q, at, Stream(ts, Filled(u, spell)))
    decreases |ts|
  {
    hide Bytes;
    hide SitesOf;
    hide Differs;
    hide AllRecorded;
    hide CallsRecorded;
    hide StandsAt;
    hide Stream;
    hide Sites;
    hide Filled;
    if ts == [] {
      NothingLeft(ts, at, spell);
      EmptyStands(q, at, u, ts, spell, p);
    } else {
      var t := ts[0];
      var next := at + |Bytes(t, Open)|;
      var rest := Sites(ts[1..], next, spell);
      Unfold(ts, at, spell, Open);
      Unfold(ts, at, spell, Filled(u, spell));
      StandsSplit(p, at, Bytes(t, Open), Stream(ts[1..], Open));
      SitesAreSpaced(ts[1..], next, spell);
      RecordedTail(u, ts, spell);
      SitesRecorded(u, ts[1..], next, spell);
      DiffersBehind(u, t, at, rest, spell, p, q, next + |Stream(ts[1..], Open)|);
      PatchedStands(u, ts[1..], next, spell, p, q);
      HeadStands(u, t, at, rest, spell, p, q, next + |Stream(ts[1..], Open)|);
      StandsJoin(q, at, Bytes(t, Filled(u, spell)), Stream(ts[1..], Filled(u, spell)));
    }
  }

  lemma EmptyStands(q: seq<Byte>, at: nat, u: Usage, ts: seq<Token>, spell: nat -> string, p: seq<Byte>)
    requires WellFormed(u) && AllRecorded(u, Sites(ts, at, spell)) && Differs(u, Sites(ts, at, spell), p, q, at, at) && ts == []
    ensures StandsAt(q, at, Stream(ts, Filled(u, spell)))
  {
  }

  lemma HeadIsBefore(t: Token, at: nat, rest: seq<Site>, spell: nat -> string, b: int)
    requires !InOperand(rest, |rest|, b) && b >= at + |Bytes(t, Open)|
    ensures !InOperand(SitesOf(t, at, spell) + rest, |SitesOf(t, at, spell) + rest|, b)
  {
    var head := SitesOf(t, at, spell);
    var all := head + rest;
    forall i | 0 <= i < |all| ensures !(all[i].off <= b < all[i].off + CALL_LEB_WIDTH) {
      if i < |head| {
        CallBytes(t, Open);
      } else {
        assert all[i] == rest[i - |head|];
      }
    }
  }

  lemma StandsJoin(p: seq<Byte>, i: nat, a: seq<Byte>, b: seq<Byte>)
    requires StandsAt(p, i, a) && StandsAt(p, i + |a|, b)
    ensures StandsAt(p, i, a + b)
  {
    assert p[i..i + |a + b|] == p[i..i + |a|] + p[i + |a|..i + |a| + |b|];
  }

  /** The opcode of a call is no operand. */
  lemma OpcodeStays(at: nat, callee: Callee, rest: seq<Site>)
    requires forall i :: 0 <= i < |rest| ==> at + 1 + CALL_LEB_WIDTH < rest[i].off
    ensures
      var all := [Site(at + 1, callee)] + rest;
      all[0] == Site(at + 1, callee) && !InOperand(all, |all|, at)
  {
    var all := [Site(at + 1, callee)] + rest;
    forall i | 0 <= i < |all| ensures !(all[i].off <= at < all[i].off + CALL_LEB_WIDTH) {
      if i > 0 {
        assert all[i] == rest[i - 1];
      }
    }
  }

  lemma CallStands(u: Usage, t: Token, at: nat, spell: nat -> string, p: seq<Byte>, q: seq<Byte>)
    requires WellFormed(u) && t.Plain? && IsCall(t.instr) && Recorded(u, CalleeOf(t.instr, spell))
    requires StandsAt(p, at, Bytes(t, Open)) && |p| == |q| && q[at] == p[at]
    requires Stands(u, q, Site(at + 1, CalleeOf(t.instr, spell)))
    ensures StandsAt(q, at, Bytes(t, Filled(u, spell))) && |Bytes(t, Filled(u, spell))| == |Bytes(t, Open)|
  {
    hide Bytes;
    hide IndexOf;
    hide Padded;
    hide CalleeOf;
    hide Recorded;
    CallBytes(t, Open);
    CallBytes(t, Filled(u, spell));
    StandsHead(p, at, 0x10, OPEN);
    assert q[at..at + 1] == [0x10];
    StandsJoin(q, at, [0x10], Filled(u, spell)(t.instr));
  }

  /** The bytes of the first token. */
  lemma HeadStands(u: Usage, t: Token, at: nat, rest: seq<Site>, spell: nat -> string, p: seq<Byte>, q: seq<Byte>, to: nat)
    requires WellFormed(u) && StandsAt(p, at, Bytes(t, Open)) && at + |Bytes(t, Open)| <= to
    requires t.Plain? && IsCall(t.instr) ==> Recorded(u, CalleeOf(t.instr, spell))
    requires AllRecorded(u, SitesOf(t, at, spell) + rest) && Differs(u, SitesOf(t, at, spell) + rest, p, q, at, to)
    requires forall i :: 0 <= i < |rest| ==> at + |Bytes(t, Open)| < rest[i].off
    ensures StandsAt(q, at, Bytes(t, Filled(u, spell))) && |Bytes(t, Filled(u, spell))| == |Bytes(t, Open)|
  {
    hide Bytes;
    hide Stands;
    hide CalleeOf;
    hide Recorded;
    hide Filled;
    if t.Plain? && IsCall(t.instr) {
      CallBytes(t, Open);
      OpcodeStays(at, CalleeOf(t.instr, spell), rest);
      CallStands(u, t, at, spell, p, q);
    } else {
      OtherBytes(t, Filled(u, spell));
      assert SitesOf(t, at, spell) + rest == rest;
      assert q[at..at + |Bytes(t, Open)|] == p[at..at + |Bytes(t, Open)|];
    }
  }

  /** A function body, emitted and then patched in place, is the stream of its
      tokens with the index of its callee in every call. */
  method EmitAndPatch(u: Usage, ts: seq<Token>, spell: nat -> string) returns (body: array<Byte>)
    requires WellFormed(u) && Distinct(u.names) && CallsRecorded(u, ts, spell)
    ensures fresh(body) && body[..] == Stream(ts, Filled(u, spell))
  {
    hide Bytes;
    hide IndexOf;
    hide Stream;
    hide Stands;
    hide Decodes;
    var out, sites := EmitBytes(ts, spell);
    body := new Byte[|out|](i requires 0 <= i < |out| => out[i]);
    assert body[..] == out;
    SitesAreSpaced(ts, 0, spell);
    SitesRecorded(u, ts, 0, spell);
    Patch(u, body, sites);
    assert StandsAt(out, 0, Stream(ts, Open)) by {
      assert out[0..|out|] == out;
    }
    PatchedStands(u, ts, 0, spell, out, body[..]);
    FilledLength(u, ts, spell);
    assert body[..][0..|out|] == body[..];
  }

  lemma {:induction false} FilledLength(u: Usage, ts: seq<Token>, spell: nat -> string)
    requires WellFormed(u)
    ensures |Stream(ts, Filled(u, spell))| == |Stream(ts, Open)|
    decreases |ts|
  {
    hide Bytes;
    if ts != [] {
      FilledLength(u, ts[1..], spell);
      if ts[0].Plain? && IsCall(ts[0].instr) {
        CallBytes(ts[0], Open);
        CallBytes(ts[0], Filled(u, spell));
      } else {
        OtherBytes(ts[0], Filled(u, spell));
      }
    }
  }

  // ---- the bytes read back ----

  datatype TokenRead = TokenRead(token: Token, next: nat)

  datatype ListRead = ListRead(values: seq<nat>, next: nat)

  function ReadTargets(p: seq<Byte>, i: nat, n: nat): (r: Option<ListRead>)
    decreases n
  {
    if n == 0 then Some(ListRead([], i))
    else match UlebAt(p, i)
      case None => None
      case Some(v) =>
        match ReadTargets(p, v.next, n - 1)
        case None => None
        case Some(rest) => Some(ListRead([v.value] + rest.values, rest.next))
  }

  /** An opcode with an index or a depth behind it. */
  function WithNumber(b: Byte, v: nat): Option<W.Instr> {
    if b == 0x0c then Some(W.Br(v))
    else if b == 0x10 then Some(W.CallWord(v))
    else if b == 0x20 then Some(W.LocalGet(v))
    else if b == 0x21 then Some(W.LocalSet(v))
    else None
  }

  /** An opcode that is all of its instruction. */
  function Alone(b: Byte): Option<W.Instr> {
    if b == 0x00 then Some(W.Unreachable)
    else if b == 0x0f then Some(W.Return)
    else if b == 0x1a then Some(W.Drop)
    else if b == 0x1b then Some(W.Select)
    else if b == 0x45 then Some(W.I32Eqz)
    else if b == 0x50 then Some(W.I64Eqz)
    else if b == 0x51 then Some(W.I64Rel(Eq))
    else if b == 0x52 then Some(W.I64Rel(Ne))
    else if b == 0x53 then Some(W.I64Rel(Lt))
    else if b == 0x55 then Some(W.I64Rel(Gt))
    else if b == 0x57 then Some(W.I64Rel(Le))
    else if b == 0x59 then Some(W.I64Rel(Ge))
    else if b == 0x7c then Some(W.I64Arith(Add))
    else if b == 0x7d then Some(W.I64Arith(Sub))
    else if b == 0x7e then Some(W.I64Arith(Mul))
    else if b == 0x83 then Some(W.I64And)
    else if b == 0x84 then Some(W.I64Or)
    else if b == 0xa7 then Some(W.I32WrapI64)
    else if b == 0xad then Some(W.I64ExtendI32U)
    else None
  }

  function Opened(b: Byte): Token {
    if b == 0x02 then OpenBlock else if b == 0x03 then OpenLoop else OpenIf
  }

  function ReadTable(p: seq<Byte>, i: nat): Option<TokenRead> {
    match UlebAt(p, i)
    case None => None
    case Some(n) =>
      match ReadTargets(p, n.next, n.value)
      case None => None
      case Some(ts) =>
        match UlebAt(p, ts.next)
        case None => None
        case Some(d) => Some(TokenRead(Plain(W.BrTable(ts.values, d.value)), d.next))
  }

  function ReadConst(p: seq<Byte>, i: nat, wide: bool): Option<TokenRead> {
    match SlebAt(p, i)
    case None => None
    case Some(v) => Some(TokenRead(Plain(if wide then W.I64Const(v.value) else W.I32Const(v.value)), v.next))
  }

  function ReadNumber(p: seq<Byte>, i: nat, b: Byte): Option<TokenRead> {
    match UlebAt(p, i)
    case None => None
    case Some(v) => match WithNumber(b, v.value) case None => None case Some(instr) => Some(TokenRead(Plain(instr), v.next))
  }

  /** The token at byte `i`. The operand of a call is an index. */
  function ReadToken(p: seq<Byte>, i: nat): Option<TokenRead> {
    if i >= |p| then None
    else if 0x02 <= p[i] <= 0x04 then
      if i + 1 < |p| && p[i + 1] == 0x40 then Some(TokenRead(Opened(p[i]), i + 2)) else None
    else if p[i] == 0x0b then Some(TokenRead(End, i + 1))
    else if p[i] == 0x0e then ReadTable(p, i + 1)
    else if p[i] == 0x41 || p[i] == 0x42 then ReadConst(p, i + 1, p[i] == 0x42)
    else match Alone(p[i])
      case Some(instr) => Some(TokenRead(Plain(instr), i + 1))
      case None => ReadNumber(p, i + 1, p[i])
  }

  /** All tokens up to the end of the bytes. */
  function ReadStream(p: seq<Byte>, i: nat): Option<seq<Token>>
    decreases |p| - i
  {
    if i >= |p| then Some([])
    else match ReadToken(p, i)
      case None => None
      case Some(r) =>
        if r.next <= i then None
        else match ReadStream(p, r.next) case None => None case Some(rest) => Some([r.token] + rest)
  }

  /** What a token is once patched: calls name the index of their callee, and
      64-bit constants are signed. */
  function Named(u: Usage, spell: nat -> string, t: Token): Token
    requires WellFormed(u)
  {
    if !t.Plain? then t
    else if IsCall(t.instr) then Plain(W.CallWord(IndexFor(u, spell, t.instr)))
    else if t.instr.I64Const? then Plain(W.I64Const(Signed(t.instr.v)))
    else t
  }

  function AllNamed(u: Usage, spell: nat -> string, ts: seq<Token>): (r: seq<Token>)
    requires WellFormed(u)
    ensures |r| == |ts| && forall k :: 0 <= k < |ts| ==> r[k] == Named(u, spell, ts[k])
  {
    seq(|ts|, k requires 0 <= k < |ts| => Named(u, spell, ts[k]))
  }

  /** Indices, depths and the lengths of tables are 64-bit numbers. */
  predicate Encodable(t: Token) {
    && Flat(t)
    && (t.Plain? ==>
          match t.instr
          case LocalGet(k) => k < TWO64
          case LocalSet(k) => k < TWO64
          case Br(d) => d < TWO64
          case BrTable(ts, d) => |ts| < TWO64 && d < TWO64 && forall k :: 0 <= k < |ts| ==> ts[k] < TWO64
          case _ => true)
  }

  lemma {:induction false} TargetsRead(p: seq<Byte>, i: nat, vs: seq<nat>)
    requires StandsAt(p, i, Ulebs(vs)) && forall k :: 0 <= k < |vs| ==> vs[k] < TWO64
    ensures ReadTargets(p, i, |vs|) == Some(ListRead(vs, i + |Ulebs(vs)|))
    decreases |vs|
  {
    hide UlebAt;
    hide Uleb;
    if vs != [] {
      StandsSplit(p, i, Uleb(vs[0]), Ulebs(vs[1..]));
      UlebInverts(p, i, vs[0]);
      TargetsRead(p, i + |Uleb(vs[0])|, vs[1..]);
      assert [vs[0]] + vs[1..] == vs;
    }
  }

  lemma TableReads(p: seq<Byte>, i: nat, ts: seq<nat>, d: nat)
    requires |ts| < TWO64 && d < TWO64 && forall k :: 0 <= k < |ts| ==> ts[k] < TWO64
    requires StandsAt(p, i, Uleb(|ts|) + (Ulebs(ts) + Uleb(d)))
    ensures ReadTable(p, i) == Some(TokenRead(Plain(W.BrTable(ts, d)), i + |Uleb(|ts|) + (Ulebs(ts) + Uleb(d))|))
  {
    hide UlebAt;
    hide Uleb;
    hide Ulebs;
    hide ReadTargets;
    StandsSplit(p, i, Uleb(|ts|), Ulebs(ts) + Uleb(d));
    var next := i + |Uleb(|ts|)|;
    StandsSplit(p, next, Ulebs(ts), Uleb(d));
    UlebInverts(p, i, |ts|);
    TargetsRead(p, next, ts);
    UlebInverts(p, next + |Ulebs(ts)|, d);
  }

  /** Opcodes that stand alone are told apart, from each other and the rest. */
  lemma AloneReads(i: W.Instr)
    requires Flat(Plain(i)) && !IsCall(i)
    requires !i.I64Const? && !i.I32Const? && !i.LocalGet? && !i.LocalSet? && !i.Br? && !i.BrTable?
    ensures Alone(Opcode(i)) == Some(i) && !(0x02 <= Opcode(i) <= 0x04)
    ensures Opcode(i) != 0x0b && Opcode(i) != 0x0e && Opcode(i) != 0x41 && Opcode(i) != 0x42
    ensures forall fill :: Immediates(i, fill) == []
  {
  }

  lemma PlainReads(u: Usage, spell: nat -> string, p: seq<Byte>, at: nat, i: W.Instr)
    requires WellFormed(u) && Encodable(Plain(i)) && !IsCall(i) && StandsAt(p, at, Bytes(Plain(i), Filled(u, spell)))
    ensures ReadToken(p, at) == Some(TokenRead(Named(u, spell, Plain(i)), at + |Bytes(Plain(i), Filled(u, spell))|))
  {
    hide Uleb;
    hide Sleb;
    hide UlebAt;
    hide SlebAt;
    hide StandsAt;
    hide Filled;
    hide ReadTable;
    StandsHead(p, at, Opcode(i), Immediates(i, Filled(u, spell)));
    if i.I64Const? {
      SlebInverts(p, at + 1, Signed(i.v));
    } else if i.I32Const? {
      SlebInverts(p, at + 1, i.v);
    } else if i.LocalGet? || i.LocalSet? {
      UlebInverts(p, at + 1, i.i);
    } else if i.Br? {
      UlebInverts(p, at + 1, i.depth);
    } else if i.BrTable? {
      TableReads(p, at + 1, i.targets, i.fallback);
    } else {
      AloneReads(i);
    }
  }

  lemma CallReads(u: Usage, spell: nat -> string, p: seq<Byte>, at: nat, i: W.Instr)
    requires WellFormed(u) && Distinct(u.names) && IsCall(i) && Recorded(u, CalleeOf(i, spell))
    requires StandsAt(p, at, Bytes(Plain(i), Filled(u, spell)))
    ensures ReadToken(p, at) == Some(TokenRead(Named(u, spell, Plain(i)), at + |Bytes(Plain(i), Filled(u, spell))|))
  {
    hide UlebAt;
    hide StandsAt;
    hide Bytes;
    hide Padded;
    hide IndexOf;
    hide CalleeOf;
    hide Recorded;
    CallBytes(Plain(i), Filled(u, spell));
    var k := IndexFor(u, spell, i);
    StandsHead(p, at, 0x10, Padded(k, CALL_LEB_WIDTH));
    IndexFits(u, CalleeOf(i, spell));
    PaddedInverts(p, at + 1, k, CALL_LEB_WIDTH);
  }

  /** What opens and closes blocks. */
  lemma FrameReads(u: Usage, spell: nat -> string, p: seq<Byte>, at: nat, t: Token)
    requires WellFormed(u) && !t.Plain? && StandsAt(p, at, Bytes(t, Filled(u, spell)))
    ensures ReadToken(p, at) == Some(TokenRead(Named(u, spell, t), at + |Bytes(t, Filled(u, spell))|))
  {
    hide StandsAt;
    if t == End {
      assert Bytes(t, Filled(u, spell)) == [0x0b] + [];
      StandsHead(p, at, 0x0b, []);
    } else {
      var b: Byte := if t == OpenBlock then 0x02 else if t == OpenLoop then 0x03 else 0x04;
      assert Bytes(t, Filled(u, spell)) == [b] + ([0x40] + []);
      StandsHead(p, at, b, [0x40] + []);
      StandsHead(p, at + 1, 0x40, []);
    }
  }

  lemma TokenReads(u: Usage, spell: nat -> string, p: seq<Byte>, at: nat, t: Token)
    requires WellFormed(u) && Distinct(u.names) && Encodable(t)
    requires t.Plain? && IsCall(t.instr) ==> Recorded(u, CalleeOf(t.instr, spell))
    requires StandsAt(p, at, Bytes(t, Filled(u, spell)))
    ensures ReadToken(p, at) == Some(TokenRead(Named(u, spell, t), at + |Bytes(t, Filled(u, spell))|))
  {
    hide Bytes;
    hide ReadToken;
    hide StandsAt;
    if !t.Plain? {
      FrameReads(u, spell, p, at, t);
    } else if IsCall(t.instr) {
      CallReads(u, spell, p, at, t.instr);
    } else {
      PlainReads(u, spell, p, at, t.instr);
    }
  }

  /** The bytes of a patched body read back to its tokens, each call with the index
      of its callee. */
  lemma {:induction false} StreamReads(u: Usage, spell: nat -> string, p: seq<Byte>, at: nat, ts: seq<Token>)
    requires WellFormed(u) && Distinct(u.names) && CallsRecorded(u, ts, spell) && forall k :: 0 <= k < |ts| ==> Encodable(ts[k])
    requires StandsAt(p, at, Stream(ts, Filled(u, spell))) && at + |Stream(ts, Filled(u, spell))| == |p|
    ensures ReadStream(p, at) == Some(AllNamed(u, spell, ts))
    decreases |ts|
  {
    hide Bytes;
    hide ReadToken;
    hide Encodable;
    hide CallsRecorded;
    hide Filled;
    hide Named;
    hide StandsAt;
    if ts == [] {
      assert AllNamed(u, spell, ts) == [];
    } else {
      var t, fill := ts[0], Filled(u, spell);
      StandsSplit(p, at, Bytes(t, fill), Stream(ts[1..], fill));
      RecordedTail(u, ts, spell);
      TokenReads(u, spell, p, at, t);
      StreamReads(u, spell, p, at + |Bytes(t, fill)|, ts[1..]);
      assert [Named(u, spell, t)] + AllNamed(u, spell, ts[1..]) == AllNamed(u, spell, ts);
    }
  }

  /** The body that is left in the module, emitted, patched and read back: the
      tokens of the function, every call naming the index of its callee. */
  lemma BodyReads(u: Usage, spell: nat -> string, ts: seq<Token>)
    requires WellFormed(u) && Distinct(u.names) && CallsRecorded(u, ts, spell) && forall k :: 0 <= k < |ts| ==> Encodable(ts[k])
    ensures ReadStream(Stream(ts, Filled(u, spell)), 0) == Some(AllNamed(u, spell, ts))
  {
    hide ReadStream;
    hide Stream;
    hide Filled;
    var p := Stream(ts, Filled(u, spell));
    assert p[0..|p|] == p;
    StreamReads(u, spell, p, 0, ts);
  }

  /** The tokens of the function a word becomes: its body, and the `end` of the
      function. */
  function FunctionTokens(w: Word): Option<seq<Token>>
    requires w.blocks != []
  {
    match WordBody(w) case None => None case Some(body) => Some(Flatten(body) + [End])
  }

  /** The whole way of a word: its operations to tokens, the tokens to bytes with
      open operands, and the operands patched. What is left reads back to the
      tokens of the structured code, every call naming the index of its callee. */
  method EmitFunction(u: Usage, w: Word, spell: nat -> string) returns (r: Option<array<Byte>>)
    requires w.blocks != [] && WellFormed(u) && Distinct(u.names)
    requires FunctionTokens(w).Some? ==> CallsRecorded(u, FunctionTokens(w).value, spell)
    ensures r.Some? <==> FunctionTokens(w).Some?
    ensures r.Some? ==> fresh(r.value) && r.value[..] == Stream(FunctionTokens(w).value, Filled(u, spell))
    ensures r.Some? && (forall k :: 0 <= k < |FunctionTokens(w).value| ==> Encodable(FunctionTokens(w).value[k])) ==>
      ReadStream(r.value[..], 0) == Some(AllNamed(u, spell, FunctionTokens(w).value))
  {
    hide WordBody;
    hide CallsRecorded;
    hide Stream;
    hide ReadStream;
    hide Filled;
    hide Encodable;
    var tokens := EmitWord(w);
    if tokens.None? {
      return None;
    }
    var ts := tokens.value + [End];
    var body := EmitAndPatch(u, ts, spell);
    if forall k :: 0 <= k < |ts| ==> Encodable(ts[k]) {
      BodyReads(u, spell, ts);
    }
    return Some(body);
  }
}
