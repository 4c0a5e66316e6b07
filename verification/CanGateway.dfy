/**
 3rdparty/libsocketcangw/libsocketcangw.c: routing rules of the CAN gateway as netlink messages.  Message
 and attribute layout follow section 2.2 of RFC 3549: a length, a type, padding to four bytes.  Numbers
 are stored little-endian.
 */
module CanGateway {
  import opened Options

  type Byte = b: int | 0 <= b < 0x100
  type Half = x: int | 0 <= x < 0x1_0000
  type Word = x: int | 0 <= x < 0x1_0000_0000

  const NLMSG_ERROR := 2
  const NLMSG_DONE := 3
  const RTM_NEWROUTE := 24
  const RTM_DELROUTE := 25
  const NLM_F_REQUEST_ACK := 5
  const AF_CAN := 29
  const CGW_TYPE_CAN_CAN := 1
  const CGW_SRC_IF := 9
  const CGW_DST_IF := 10
  const CGW_FILTER := 11
  const CAN_INV_FILTER := 0x2000_0000
  const HEADER := 16
  const RTCAN := 20
  const REQUEST_SIZE := 1520

  /** `echoOption` and `filterOption` are the two bits of the rule's options. */
  datatype Rule = Rule(src: Word, dst: Word, echoOption: bool, filterOption: bool, echo: Word, canId: Word, canMask: Word)

  const EMPTY := Rule(0, 0, false, false, 0, 0, 0)

  // ---- numbers in memory ----------------------------------------------------------------------

  function HalfBytes(x: Half): (r: seq<Byte>)
    ensures |r| == 2
  {
    [x % 0x100, x / 0x100]
  }

  function WordBytes(x: Word): (r: seq<Byte>)
    ensures |r| == 4
  {
    HalfBytes(x % 0x1_0000) + HalfBytes(x / 0x1_0000)
  }

  /** Memory behind the end of `s` reads as zero. */
  function ByteAt(s: seq<Byte>, i: nat): Byte {
    if i < |s| then s[i] else 0
  }

  function HalfAt(s: seq<Byte>, i: nat): Half {
    ByteAt(s, i) + 0x100 * ByteAt(s, i + 1)
  }

  function WordAt(s: seq<Byte>, i: nat): Word {
    HalfAt(s, i) + 0x1_0000 * HalfAt(s, i + 2)
  }

  function Drop(s: seq<Byte>, n: nat): seq<Byte> {
    if n <= |s| then s[n..] else []
  }

  function Align(n: nat): (r: nat)
    ensures n <= r < n + 4 && r % 4 == 0
  {
    (n + 3) / 4 * 4
  }

  function Zeros(n: nat): (r: seq<Byte>)
    ensures |r| == n && forall i :: 0 <= i < n ==> r[i] == 0
  {
    seq(n, _ => 0)
  }

  // ---- messages -------------------------------------------------------------------------------

  datatype Attr = Attr(kind: Half, data: seq<Byte>)

  predicate Small(a: Attr) {
    |a.data| < 0x1000
  }

  function AttrBytes(a: Attr): (r: seq<Byte>)
    requires Small(a)
    ensures |r| == Align(4 + |a.data|)
  {
    HalfBytes(4 + |a.data|) + HalfBytes(a.kind) + a.data + Zeros(Align(4 + |a.data|) - 4 - |a.data|)
  }

  predicate AllSmall(attrs: seq<Attr>) {
    forall i :: 0 <= i < |attrs| ==> Small(attrs[i])
  }

  function Body(attrs: seq<Attr>): seq<Byte>
    requires AllSmall(attrs)
  {
    if attrs == [] then [] else Body(attrs[..|attrs| - 1]) + AttrBytes(attrs[|attrs| - 1])
  }

  lemma BodySnoc(attrs: seq<Attr>, a: Attr)
    requires AllSmall(attrs) && Small(a)
    ensures AllSmall(attrs + [a]) && Body(attrs + [a]) == Body(attrs) + AttrBytes(a)
  {
    hide AttrBytes, Align, Small;
    assert (attrs + [a])[..|attrs|] == attrs;
  }

  lemma {:induction false} BodyAligned(attrs: seq<Attr>)
    requires AllSmall(attrs)
    ensures |Body(attrs)| % 4 == 0
  {
    hide AttrBytes, Align, Small;
    if attrs != [] {
      BodyAligned(attrs[..|attrs| - 1]);
    }
  }

  lemma MessageAligned(attrs: seq<Attr>)
    requires AllSmall(attrs)
    ensures Align(RTCAN + |Body(attrs)|) == RTCAN + |Body(attrs)|
  {
    BodyAligned(attrs);
    hide Body, AllSmall;
  }

  /** nlmsghdr, then rtcanmsg. */
  function MessageHeader(length: Word, kind: Half, flags: Half, canFlags: Half): (r: seq<Byte>)
    ensures |r| == RTCAN
  {
    WordBytes(length) + HalfBytes(kind) + HalfBytes(flags) + WordBytes(0) + WordBytes(0)
    + [AF_CAN, CGW_TYPE_CAN_CAN] + HalfBytes(canFlags)
  }

  predicate Fits(attrs: seq<Attr>) {
    AllSmall(attrs) && RTCAN + |Body(attrs)| <= REQUEST_SIZE
  }

  function Message(kind: Half, flags: Half, canFlags: Half, attrs: seq<Attr>): (r: seq<Byte>)
    requires Fits(attrs)
    ensures |r| == RTCAN + |Body(attrs)|
  {
    MessageHeader(RTCAN + |Body(attrs)|, kind, flags, canFlags) + Body(attrs)
  }

  // ---- writing a request ----------------------------------------------------------------------

  function Splice(s: seq<Byte>, at: nat, data: seq<Byte>): (r: seq<Byte>)
    requires at + |data| <= |s|
    ensures |r| == |s|
  {
    s[..at] + data + s[at + |data|..]
  }

  lemma SpliceBehind(m: seq<Byte>, z: seq<Byte>, at: nat, data: seq<Byte>)
    requires at + |data| <= |z|
    ensures Splice(m + z, |m| + at, data) == m + Splice(z, at, data)
  {}

  lemma SpliceBefore(m: seq<Byte>, z: seq<Byte>, at: nat, data: seq<Byte>)
    requires at + |data| <= |m|
    ensures Splice(m + z, at, data) == Splice(m, at, data) + z
  {}

  /** The three writes that put an attribute into zeroed room. */
  lemma AttrSpliced(a: Attr, room: nat)
    requires Small(a) && Align(4 + |a.data|) <= room
    ensures var z := Splice(Splice(Splice(Zeros(room), 2, HalfBytes(a.kind)), 0, HalfBytes(4 + |a.data|)), 4, a.data);
            z == AttrBytes(a) + Zeros(room - Align(4 + |a.data|))
  {
    var k, l, n := HalfBytes(a.kind), HalfBytes(4 + |a.data|), |a.data|;
    var pad := Align(4 + n) - 4 - n;
    hide HalfBytes;
    assert Splice(Zeros(room), 2, k) == Zeros(2) + k + Zeros(room - 4);
    assert Splice(Zeros(2) + k + Zeros(room - 4), 0, l) == l + k + Zeros(room - 4);
    assert Splice(l + k + Zeros(room - 4), 4, a.data) == l + k + a.data + Zeros(room - 4 - n);
    assert Zeros(room - 4 - n) == Zeros(pad) + Zeros(room - 4 - n - pad);
  }

  /** Only the length at its front tells a longer message's header from a shorter one's. */
  lemma HeaderSpliced(length: Word, length1: Word, kind: Half, flags: Half, canFlags: Half)
    ensures Splice(MessageHeader(length, kind, flags, canFlags), 0, WordBytes(length1)) == MessageHeader(length1, kind, flags, canFlags)
  {
    hide WordBytes, HalfBytes;
  }

  lemma EchoSpliced(length: Word, kind: Half, flags: Half)
    ensures Splice(MessageHeader(length, kind, flags, 0), 18, HalfBytes(1)) == MessageHeader(length, kind, flags, 1)
  {
    hide WordBytes, HalfBytes;
  }

  /** The whole buffer: a message with this body, and zeros up to the end. */
  function Whole(kind: Half, flags: Half, canFlags: Half, body: seq<Byte>): (r: seq<Byte>)
    requires RTCAN + |body| <= REQUEST_SIZE
    ensures |r| == REQUEST_SIZE
  {
    MessageHeader(RTCAN + |body|, kind, flags, canFlags) + body + Zeros(REQUEST_SIZE - RTCAN - |body|)
  }

  /** All writes of addattr_l together; `n` is the length before, `n1` the length after. */
  lemma AttrAppended(kind: Half, flags: Half, canFlags: Half, body: seq<Byte>, a: Attr, n: nat, n1: nat)
    requires Small(a) && n == RTCAN + |body| && n1 == n + |AttrBytes(a)| <= REQUEST_SIZE
    ensures var z := Whole(kind, flags, canFlags, body);
            var z1 := Splice(Splice(Splice(z, n + 2, HalfBytes(a.kind)), n, HalfBytes(4 + |a.data|)), n + 4, a.data);
            Splice(z1, 0, WordBytes(n1)) == Whole(kind, flags, canFlags, body + AttrBytes(a))
  {
    var bytes, room := AttrBytes(a), REQUEST_SIZE - n;
    var header, header1 := MessageHeader(n, kind, flags, canFlags), MessageHeader(n1, kind, flags, canFlags);
    var rest := bytes + Zeros(room - |bytes|);
    AttrSpliced(a, room);
    HeaderSpliced(n, n1, kind, flags, canFlags);
    hide Splice, MessageHeader, AttrBytes, HalfBytes, WordBytes, Align;
    ThreeBehind(header + body, Zeros(room), HalfBytes(a.kind), HalfBytes(4 + |a.data|), a.data);
    assert (header + body) + rest == header + (body + rest);
    SpliceBefore(header, body + rest, 0, WordBytes(n1));
    assert header1 + (body + rest) == header1 + (body + bytes) + Zeros(room - |bytes|);
  }

  lemma ThreeBehind(m: seq<Byte>, z: seq<Byte>, k: seq<Byte>, l: seq<Byte>, data: seq<Byte>)
    requires |k| == |l| == 2 && 4 + |data| <= |z|
    ensures Splice(Splice(Splice(m + z, |m| + 2, k), |m|, l), |m| + 4, data) == m + Splice(Splice(Splice(z, 2, k), 0, l), 4, data)
  {
    hide Splice;
    SpliceBehind(m, z, 2, k);
    var z1 := Splice(z, 2, k);
    SpliceBehind(m, z1, 0, l);
    SpliceBehind(m, Splice(z1, 0, l), 4, data);
  }

  /** The writes of init_req_data, in its order. */
  lemma HeaderInitialised(kind: Half, flags: Half)
    ensures var z := Splice(Splice(Splice(Zeros(REQUEST_SIZE), 6, HalfBytes(flags)), 4, HalfBytes(kind)), 0, WordBytes(RTCAN));
            Splice(Splice(z, 16, [AF_CAN, CGW_TYPE_CAN_CAN]), 18, HalfBytes(0)) == Whole(kind, flags, 0, [])
  {
    var f, k, l, c := HalfBytes(flags), HalfBytes(kind), WordBytes(RTCAN), HalfBytes(0);
    assert WordBytes(0) == Zeros(4);
    hide HalfBytes, WordBytes;
    assert Splice(Zeros(REQUEST_SIZE), 6, f) == Zeros(6) + f + Zeros(REQUEST_SIZE - 8);
    assert Splice(Zeros(6) + f + Zeros(REQUEST_SIZE - 8), 4, k) == Zeros(4) + k + f + Zeros(REQUEST_SIZE - 8);
    assert Splice(Zeros(4) + k + f + Zeros(REQUEST_SIZE - 8), 0, l) == l + k + f + Zeros(REQUEST_SIZE - 8);
    var t := [AF_CAN, CGW_TYPE_CAN_CAN];
    assert Splice(l + k + f + Zeros(REQUEST_SIZE - 8), 16, t) == l + k + f + Zeros(8) + t + Zeros(REQUEST_SIZE - 18);
    assert Splice(l + k + f + Zeros(8) + t + Zeros(REQUEST_SIZE - 18), 18, c) == l + k + f + Zeros(8) + t + c + Zeros(REQUEST_SIZE - RTCAN);
    assert Zeros(8) == Zeros(4) + Zeros(4);
  }

  /** The header's fields, read from memory. */
  lemma HeaderLength(length: Word, kind: Half, flags: Half, canFlags: Half, rest: seq<Byte>)
    ensures var m := MessageHeader(length, kind, flags, canFlags) + rest;
            && WordAt(m, 0) == WordAt(m[..4], 0) == length && HalfAt(m, 4) == kind
            && ByteAt(m, 16) == AF_CAN && ByteAt(m, 17) == CGW_TYPE_CAN_CAN && HalfAt(m, 18) == canFlags
  {
    var m := MessageHeader(length, kind, flags, canFlags) + rest;
    assert m[0] == WordBytes(length)[0] && m[1] == WordBytes(length)[1] && m[2] == WordBytes(length)[2] && m[3] == WordBytes(length)[3];
    assert m[4] == HalfBytes(kind)[0] && m[5] == HalfBytes(kind)[1];
    assert m[18] == HalfBytes(canFlags)[0] && m[19] == HalfBytes(canFlags)[1];
  }

  /** struct s_request_data: a header and room for attributes, zero behind the message written so far. */
  class Request {
    const buf: array<Byte>
    ghost var kind: Half
    ghost var flags: Half
    ghost var canFlags: Half
    ghost var attrs: seq<Attr>

    ghost predicate Valid()
      reads this, buf
    {
      && buf.Length == REQUEST_SIZE && Fits(attrs)
      && buf[..] == Whole(kind, flags, canFlags, Body(attrs))
    }

    /** init_req_data. */
    constructor (flags: Half, kind: Half)
      ensures Valid() && fresh(buf) && this.kind == kind && this.flags == flags && canFlags == 0 && attrs == []
    {
      hide Splice, HalfBytes, WordBytes, Whole;
      var b: array<Byte> := new Byte[REQUEST_SIZE](_ => 0);
      buf := b;
      this.kind, this.flags, this.canFlags, this.attrs := kind, flags, 0, [];
      new;
      assert buf[..] == Zeros(REQUEST_SIZE);
      Put(6, HalfBytes(flags));
      Put(4, HalfBytes(kind));
      Put(0, WordBytes(RTCAN));
      Put(16, [AF_CAN, CGW_TYPE_CAN_CAN]);
      Put(18, HalfBytes(0));
      HeaderInitialised(kind, flags);
    }

    method Put(at: nat, data: seq<Byte>)
      requires at + |data| <= buf.Length
      modifies buf
      ensures buf[..] == Splice(old(buf[..]), at, data)
    {
      ghost var was := buf[..];
      for i := 0 to |data|
        invariant forall j :: 0 <= j < i ==> buf[at + j] == data[j]
        invariant forall j :: 0 <= j < buf.Length && !(at <= j < at + i) ==> buf[j] == was[j]
      {
        buf[at + i] := data[i];
      }
    }

    /** The length stored at the front of the message. */
    method Length() returns (length: Word)
      requires Valid()
      ensures length == RTCAN + |Body(attrs)|
    {
      ghost var rest := Body(attrs) + Zeros(REQUEST_SIZE - RTCAN - |Body(attrs)|);
      ghost var header := MessageHeader(RTCAN + |Body(attrs)|, kind, flags, canFlags);
      assert buf[..] == header + rest;
      HeaderLength(RTCAN + |Body(attrs)|, kind, flags, canFlags, rest);
      hide MessageHeader, Body;
      assert buf[..4] == buf[..][..4];
      length := WordAt(buf[..4], 0);
    }

    /** rtcan.flags |= CGW_FLAGS_CAN_ECHO. */
    method RaiseEcho()
      requires Valid() && canFlags == 0
      modifies this`canFlags, buf
      ensures Valid() && canFlags == 1
    {
      ghost var header := MessageHeader(RTCAN + |Body(attrs)|, kind, flags, 0);
      ghost var rest := Body(attrs) + Zeros(REQUEST_SIZE - RTCAN - |Body(attrs)|);
      assert buf[..] == header + rest;
      Put(18, HalfBytes(1));
      SpliceBefore(header, rest, 18, HalfBytes(1));
      EchoSpliced(RTCAN + |Body(attrs)|, kind, flags);
      canFlags := 1;
      assert buf[..] == MessageHeader(RTCAN + |Body(attrs)|, kind, flags, 1) + rest;
    }

    /** The writes of one attribute behind the first `tail` bytes, and of the new length. */
    method PutAttr(tail: nat, a: Attr, length: Word)
      requires Small(a) && tail + 4 + |a.data| <= buf.Length
      modifies buf
      ensures var z1 := Splice(Splice(Splice(old(buf[..]), tail + 2, HalfBytes(a.kind)), tail, HalfBytes(4 + |a.data|)), tail + 4, a.data);
              buf[..] == Splice(z1, 0, WordBytes(length))
    {
      hide Splice, HalfBytes, WordBytes;
      Put(tail + 2, HalfBytes(a.kind));
      Put(tail, HalfBytes(4 + |a.data|));
      Put(tail + 4, a.data);
      Put(0, WordBytes(length));
    }

    /** addattr_l: appends an attribute if it fits, and leaves the message alone if not. */
    method AddAttr(a: Attr) returns (ret: int)
      requires Valid() && Small(a)
      modifies this`attrs, buf
      ensures Valid()
      ensures ret == if RTCAN + |Body(old(attrs))| + Align(4 + |a.data|) <= REQUEST_SIZE then 0 else -1
      ensures attrs == if ret == 0 then old(attrs) + [a] else old(attrs)
    {
      MessageAligned(attrs);
      BodySnoc(attrs, a);
      hide Splice, HalfBytes, WordBytes, Whole, Body, Align, AttrBytes;
      var used := Length();
      var length := 4 + |a.data|;
      if Align(used) + Align(length) > REQUEST_SIZE {
        return -1;
      }
      var tail := Align(used);
      AttrAppended(kind, flags, canFlags, Body(attrs), a, tail, tail + Align(length));
      PutAttr(tail, a, tail + Align(length));
      attrs := attrs + [a];
      ret := 0;
    }
  }

  // ---- the request of a rule ------------------------------------------------------------------

  function Filter(rule: Rule): Attr {
    Attr(CGW_FILTER, WordBytes(rule.canId) + WordBytes(rule.canMask))
  }

  function RuleAttrs(rule: Rule): (r: seq<Attr>)
    ensures Fits(r)
  {
    var ifs := [Attr(CGW_SRC_IF, WordBytes(rule.src)), Attr(CGW_DST_IF, WordBytes(rule.dst))];
    IfsFit(ifs, Filter(rule));
    if rule.filterOption then ifs + [Filter(rule)] else ifs
  }

  lemma IfsFit(ifs: seq<Attr>, filter: Attr)
    requires |ifs| == 2 && |ifs[0].data| == |ifs[1].data| == 4 && |filter.data| == 8
    ensures Fits(ifs) && Fits(ifs + [filter]) && |AttrBytes(ifs[0])| == |AttrBytes(ifs[1])| == 8 && |AttrBytes(filter)| == 12
    ensures Body(ifs) == AttrBytes(ifs[0]) + AttrBytes(ifs[1])
    ensures Body(ifs + [filter]) == AttrBytes(ifs[0]) + AttrBytes(ifs[1]) + AttrBytes(filter)
  {
    assert (ifs + [filter])[..2] == ifs;
    assert ifs[..1][..0] == [] && ifs[..1][0] == ifs[0];
    assert Body(ifs[..1]) == [] + AttrBytes(ifs[0]);
  }

  function RuleMessage(kind: Half, rule: Rule): seq<Byte> {
    Message(kind, NLM_F_REQUEST_ACK, if rule.echoOption && rule.echo == 1 then 1 else 0, RuleAttrs(rule))
  }

  /** operate_rule_options. */
  method OperateRuleOptions(req: Request, rule: Rule)
    requires req.Valid() && req.canFlags == 0 && |Body(req.attrs)| <= 16
    modifies req, req.buf
    ensures req.Valid() && req.canFlags == (if rule.echoOption && rule.echo == 1 then 1 else 0)
    ensures req.attrs == old(req.attrs) + if rule.filterOption then [Filter(rule)] else []
    ensures req.kind == old(req.kind) && req.flags == old(req.flags)
  {
    hide Message, Body;
    if rule.echoOption && rule.echo == 1 {
      req.RaiseEcho();
    }
    if rule.filterOption {
      var ret := req.AddAttr(Filter(rule));
    } else {
      assert req.attrs + [] == req.attrs;
    }
  }

  /** cangw_add_rule and cangw_delete_rule, up to the sending: a rule between two interfaces, or nothing. */
  method RuleRequest(kind: Half, rule: Rule) returns (ret: int, req: Request?)
    ensures ret == if rule.src == 0 || rule.dst == 0 then -3 else 0
    ensures ret == 0 ==> req != null && req.Valid()
    ensures ret == 0 ==> req.buf[..|RuleMessage(kind, rule)|] == RuleMessage(kind, rule)
  {
    if rule.src == 0 || rule.dst == 0 {
      return -3, null;
    }
    var src, dst := Attr(CGW_SRC_IF, WordBytes(rule.src)), Attr(CGW_DST_IF, WordBytes(rule.dst));
    IfsFit([src, dst], Filter(rule));
    SingleBody(src);
    hide Message, Body, AttrBytes, WordBytes, Align, MessageHeader, Whole, Filter;
    req := new Request(NLM_F_REQUEST_ACK, kind);
    ret := req.AddAttr(src);
    assert req.attrs == [src];
    ret := req.AddAttr(dst);
    assert req.attrs == [src, dst];
    OperateRuleOptions(req, rule);
    assert [src, dst] + [] == [src, dst];
    WholeStarts(kind, NLM_F_REQUEST_ACK, req.canFlags, req.attrs);
    ret := 0;
  }

  lemma WholeStarts(kind: Half, flags: Half, canFlags: Half, attrs: seq<Attr>)
    requires Fits(attrs)
    ensures var m := Message(kind, flags, canFlags, attrs);
            Whole(kind, flags, canFlags, Body(attrs))[..|m|] == m
  {
    hide MessageHeader, Body;
  }

  lemma SingleBody(a: Attr)
    requires |a.data| == 4
    ensures Body([]) == [] && Fits([a]) && Body([a]) == AttrBytes(a)
  {
    assert [a][..0] == [];
    assert [] + AttrBytes(a) == AttrBytes(a);
  }

  // ---- reading a listing ----------------------------------------------------------------------

  function ClearInvert(id: Word): (r: Word) {
    if id / CAN_INV_FILTER % 2 == 1 then id - CAN_INV_FILTER else id
  }

  /** RTA_OK on `left` bytes of attributes. */
  predicate RtaOk(s: seq<Byte>, left: int) {
    left >= 4 && 4 <= HalfAt(s, 0) <= left
  }

  function TakeIf(rule: Rule, kind: Half, value: Word): Rule {
    if kind == CGW_SRC_IF then rule.(src := value) else if kind == CGW_DST_IF then rule.(dst := value) else rule
  }

  function TakeFilter(rule: Rule, kind: Half, id: Word, mask: Word): Rule {
    if kind == CGW_FILTER then rule.(canId := ClearInvert(id), canMask := mask) else rule
  }

  /** First walk over the attributes: the interfaces. */
  function ScanIfs(s: seq<Byte>, left: int, rule: Rule): Rule
    decreases left
  {
    if !RtaOk(s, left) then rule
    else ScanIfs(Drop(s, Align(HalfAt(s, 0))), left - Align(HalfAt(s, 0)), TakeIf(rule, HalfAt(s, 2), WordAt(s, 4)))
  }

  /** Second walk: the filter. */
  function ScanFilter(s: seq<Byte>, left: int, rule: Rule): Rule
    decreases left
  {
    if !RtaOk(s, left) then rule
    else
      ScanFilter(Drop(s, Align(HalfAt(s, 0))), left - Align(HalfAt(s, 0)),
                 TakeFilter(rule, HalfAt(s, 2), WordAt(s, 4), WordAt(s, 8)))
  }

  function ParsedRule(s: seq<Byte>): Rule {
    var left := WordAt(s, 0) - RTCAN;
    var rule := ScanIfs(Drop(s, RTCAN), left, EMPTY).(echoOption := true, filterOption := true, echo := HalfAt(s, 18) % 2);
    ScanFilter(Drop(s, RTCAN), left, rule)
  }

  datatype Listing = Listing(rules: seq<Rule>, result: int)

  /** NLMSG_OK on `left` bytes of messages. */
  predicate NlmsgOk(s: seq<Byte>, left: int) {
    left >= HEADER && HEADER <= WordAt(s, 0) <= left
  }

  /** parse_listing_data. */
  function Parse(s: seq<Byte>, left: int): Listing
    decreases left
  {
    if !NlmsgOk(s, left) then Listing([], 0)
    else if HalfAt(s, 4) == NLMSG_ERROR then Listing([], -1)
    else if HalfAt(s, 4) == NLMSG_DONE then Listing([], 1)
    else if ByteAt(s, 16) != AF_CAN || ByteAt(s, 17) != CGW_TYPE_CAN_CAN then Listing([], -1)
    else
      var rest := Parse(Drop(s, Align(WordAt(s, 0))), left - Align(WordAt(s, 0)));
      rest.(rules := [ParsedRule(s)] + rest.rules)
  }

  // ---- reading back what was written ----------------------------------------------------------

  /** What the gateway's listing can say about a rule: the options it had not set come back as their defaults. */
  function Listed(rule: Rule): Rule {
    Rule(rule.src, rule.dst, true, true, if rule.echoOption && rule.echo == 1 then 1 else 0,
         if rule.filterOption then ClearInvert(rule.canId) else 0, if rule.filterOption then rule.canMask else 0)
  }

  function RuleMessages(kind: Half, rules: seq<Rule>): seq<Byte> {
    if rules == [] then [] else RuleMessage(kind, rules[0]) + RuleMessages(kind, rules[1..])
  }

  lemma WordReads(x: Word, t: seq<Byte>)
    ensures WordAt(WordBytes(x) + t, 0) == x
  {
    var s := WordBytes(x) + t;
    assert s[0] == WordBytes(x)[0] && s[1] == WordBytes(x)[1] && s[2] == WordBytes(x)[2] && s[3] == WordBytes(x)[3];
  }

  lemma DropReads(s: seq<Byte>, n: nat, i: nat)
    ensures WordAt(Drop(s, n), i) == WordAt(s, n + i) && HalfAt(Drop(s, n), i) == HalfAt(s, n + i)
    ensures ByteAt(Drop(s, n), i) == ByteAt(s, n + i)
  {}

  /** An attribute read back: its length, its kind, and its data from byte 4 on. */
  lemma AttrReads(a: Attr, t: seq<Byte>)
    requires Small(a)
    ensures var s := AttrBytes(a) + t;
            && HalfAt(s, 0) == 4 + |a.data| && HalfAt(s, 2) == a.kind
            && Drop(s, Align(4 + |a.data|)) == t
            && Drop(s, 4) == a.data + (Zeros(Align(4 + |a.data|) - 4 - |a.data|) + t)
  {
    var s, n := AttrBytes(a) + t, |a.data|;
    assert s[0] == HalfBytes(4 + n)[0] && s[1] == HalfBytes(4 + n)[1] && s[2] == HalfBytes(a.kind)[0] && s[3] == HalfBytes(a.kind)[1];
    var l, k := HalfBytes(4 + n), HalfBytes(a.kind);
    hide HalfBytes, Align;
    assert s == (l + k) + (a.data + (Zeros(Align(4 + n) - 4 - n) + t));
  }

  /** Walking over an interface attribute. */
  lemma IfStep(kind: Half, x: Word, t: seq<Byte>, left: nat, rule: Rule)
    ensures var a := Attr(kind, WordBytes(x));
            && ScanIfs(AttrBytes(a) + t, 8 + left, rule) == ScanIfs(t, left, TakeIf(rule, kind, x))
            && (kind != CGW_FILTER ==> ScanFilter(AttrBytes(a) + t, 8 + left, rule) == ScanFilter(t, left, rule))
  {
    var a := Attr(kind, WordBytes(x));
    var s := AttrBytes(a) + t;
    AttrReads(a, t);
    WordReads(x, Zeros(Align(8) - 8) + t);
    DropReads(s, 4, 0);
    EightAligned();
    hide WordAt, HalfAt, AttrBytes, WordBytes, Drop, Align, Zeros;
  }

  lemma EightAligned()
    ensures Align(8) == 8
  {}

  /** Walking over the filter, the last attribute. */
  lemma FilterStep(r: Rule, t: seq<Byte>, rule: Rule)
    ensures var s := AttrBytes(Filter(r)) + t;
            && ScanIfs(s, 12, rule) == rule
            && ScanFilter(s, 12, rule) == rule.(canId := ClearInvert(r.canId), canMask := r.canMask)
  {
    var s, id, mask := AttrBytes(Filter(r)) + t, WordBytes(r.canId), WordBytes(r.canMask);
    AttrReads(Filter(r), t);
    var pad := Zeros(Align(12) - 12);
    assert Drop(s, 4) == (id + mask) + (pad + t);
    assert (id + mask) + (pad + t) == id + (mask + (pad + t));
    WordReads(r.canId, mask + (pad + t));
    WordReads(r.canMask, pad + t);
    assert Drop(Drop(s, 4), 4) == mask + (pad + t);
    DropReads(s, 4, 0);
    DropReads(Drop(s, 4), 4, 0);
    DropReads(s, 4, 4);
    hide WordAt, HalfAt, AttrBytes, WordBytes, Drop, ClearInvert;
  }

  /** The header of a rule's message, and what is behind it. */
  lemma RuleShape(kind: Half, rule: Rule, t: seq<Byte>)
    ensures var s, n, body := RuleMessage(kind, rule) + t, |RuleMessage(kind, rule)|, Body(RuleAttrs(rule));
            && WordAt(s, 0) == n == RTCAN + |body| && HalfAt(s, 4) == kind
            && ByteAt(s, 16) == AF_CAN && ByteAt(s, 17) == CGW_TYPE_CAN_CAN
            && HalfAt(s, 18) == (if rule.echoOption && rule.echo == 1 then 1 else 0)
            && Drop(s, RTCAN) == body + t && Drop(s, n) == t
  {
    var flags: Half := if rule.echoOption && rule.echo == 1 then 1 else 0;
    var s, n, body := RuleMessage(kind, rule) + t, |RuleMessage(kind, rule)|, Body(RuleAttrs(rule));
    var header := MessageHeader(RTCAN + |body|, kind, NLM_F_REQUEST_ACK, flags);
    HeaderLength(RTCAN + |body|, kind, NLM_F_REQUEST_ACK, flags, body + t);
    hide MessageHeader, Body, RuleAttrs, WordAt, HalfAt, ByteAt;
    assert RuleMessage(kind, rule) == header + body;
    DropParts(header, body, t);
    hide Drop;
  }

  lemma DropParts(header: seq<Byte>, body: seq<Byte>, t: seq<Byte>)
    ensures var s := (header + body) + t; s == header + (body + t) && Drop(s, |header|) == body + t && Drop(s, |header| + |body|) == t
  {}

  /** A rule's message, whatever follows it, is read back as that rule. */
  lemma RuleReads(kind: Half, rule: Rule, t: seq<Byte>)
    ensures ParsedRule(RuleMessage(kind, rule) + t) == Listed(rule)
  {
    hide RuleMessage, Message, MessageHeader, Body, RuleAttrs, WordAt, HalfAt, ByteAt, ScanIfs, ScanFilter, ClearInvert, Drop;
    RuleShape(kind, rule, t);
    RuleBodyReads(rule, t, EMPTY);
    var echo := if rule.echoOption && rule.echo == 1 then 1 else 0;
    RuleBodyReads(rule, t, EMPTY.(src := rule.src, dst := rule.dst, echoOption := true, filterOption := true, echo := echo));
  }

  lemma RuleBodyReads(rule: Rule, t: seq<Byte>, r: Rule)
    ensures var body := Body(RuleAttrs(rule));
            && ScanIfs(body + t, |body|, r) == r.(src := rule.src, dst := rule.dst)
            && ScanFilter(body + t, |body|, r)
               == if rule.filterOption then r.(canId := ClearInvert(rule.canId), canMask := rule.canMask) else r
  {
    var src, dst, filter := Attr(CGW_SRC_IF, WordBytes(rule.src)), Attr(CGW_DST_IF, WordBytes(rule.dst)), Filter(rule);
    IfsFit([src, dst], filter);
    hide AttrBytes, WordBytes, Body, Align, ScanIfs, ScanFilter, RtaOk, ClearInvert;
    var a, b, c := AttrBytes(src), AttrBytes(dst), AttrBytes(filter);
    var body, r2 := Body(RuleAttrs(rule)), r.(src := rule.src, dst := rule.dst);
    var tail := if rule.filterOption then c + t else t;
    assert body + t == a + (b + tail);
    var left := if rule.filterOption then 12 else 0;
    assert |body| == 8 + (8 + left);
    FilterStep(rule, t, r);
    FilterStep(rule, t, r2);
    IfStep(CGW_SRC_IF, rule.src, b + tail, 8 + left, r);
    IfStep(CGW_DST_IF, rule.dst, tail, left, r.(src := rule.src));
    IfStep(CGW_DST_IF, rule.dst, tail, left, r);
    NothingLeft(t, r);
    NothingLeft(t, r2);
  }

  lemma NothingLeft(t: seq<Byte>, r: Rule)
    ensures ScanIfs(t, 0, r) == r && ScanFilter(t, 0, r) == r
  {}

  /**
   Any number of rules written as messages and followed by other bytes parse to the same rules, in order,
   and parsing goes on with what follows.
   */
  lemma {:induction false} MessagesRoundTrip(kind: Half, rules: seq<Rule>, t: seq<Byte>, left: nat)
    requires kind != NLMSG_ERROR && kind != NLMSG_DONE
    ensures var rest := Parse(t, left);
            Parse(RuleMessages(kind, rules) + t, |RuleMessages(kind, rules)| + left)
            == Listing(ListedAll(rules) + rest.rules, rest.result)
  {
    hide RuleMessage, WordAt, HalfAt, ByteAt, ParsedRule, Drop, Listed, Parse, Align;
    if rules == [] {
      assert [] + t == t && ListedAll(rules) + Parse(t, left).rules == Parse(t, left).rules;
    } else {
      var m, ms := RuleMessage(kind, rules[0]), RuleMessages(kind, rules[1..]);
      var s := m + (ms + t);
      assert RuleMessages(kind, rules) + t == s;
      assert |RuleMessages(kind, rules)| == |m| + |ms|;
      RuleShape(kind, rules[0], ms + t);
      RuleReads(kind, rules[0], ms + t);
      MessageAligned(RuleAttrs(rules[0]));
      MessagesRoundTrip(kind, rules[1..], t, left);
      ParseStep(s, |m| + |ms| + left);
      var rest := Parse(t, left);
      assert [Listed(rules[0])] + (ListedAll(rules[1..]) + rest.rules) == ListedAll(rules) + rest.rules;
    }
  }

  /** Parsing takes one rule off the front and goes on behind it. */
  lemma ParseStep(s: seq<Byte>, left: int)
    requires NlmsgOk(s, left) && HalfAt(s, 4) != NLMSG_ERROR && HalfAt(s, 4) != NLMSG_DONE
    requires ByteAt(s, 16) == AF_CAN && ByteAt(s, 17) == CGW_TYPE_CAN_CAN
    ensures var rest := Parse(Drop(s, Align(WordAt(s, 0))), left - Align(WordAt(s, 0)));
            Parse(s, left) == rest.(rules := [ParsedRule(s)] + rest.rules)
  {
    hide ParsedRule, Drop, WordAt, HalfAt, ByteAt, Align;
  }

  function ListedAll(rules: seq<Rule>): (r: seq<Rule>)
    ensures |r| == |rules| && forall i :: 0 <= i < |r| ==> r[i] == Listed(rules[i])
  {
    if rules == [] then [] else [Listed(rules[0])] + ListedAll(rules[1..])
  }

  lemma NothingMore(s: seq<Byte>)
    ensures Parse(s, 0) == Listing([], 0)
    ensures HEADER <= WordAt(s, 0) <= |s| && HalfAt(s, 4) == NLMSG_DONE ==> Parse(s, |s|) == Listing([], 1)
  {
    hide ParsedRule, Drop, WordAt, HalfAt, ByteAt, Align;
  }

  /** What the kernel finds in a request, byte by byte: its length and kind, the flags, and the attributes with their kinds. */
  lemma RequestLayout(kind: Half, rule: Rule)
    ensures var m := RuleMessage(kind, rule);
            && |m| == (if rule.filterOption then 48 else 36) && WordAt(m, 0) == |m|
            && HalfAt(m, 4) == kind && HalfAt(m, 6) == NLM_F_REQUEST_ACK && ByteAt(m, 16) == AF_CAN && ByteAt(m, 17) == CGW_TYPE_CAN_CAN
            && HalfAt(m, 18) == (if rule.echoOption && rule.echo == 1 then 1 else 0)
            && HalfAt(m, 20) == 8 && HalfAt(m, 22) == CGW_SRC_IF && WordAt(m, 24) == rule.src
            && HalfAt(m, 28) == 8 && HalfAt(m, 30) == CGW_DST_IF && WordAt(m, 32) == rule.dst
            && (rule.filterOption ==>
                  HalfAt(m, 36) == 12 && HalfAt(m, 38) == CGW_FILTER && WordAt(m, 40) == rule.canId && WordAt(m, 44) == rule.canMask)
  {
    hide RuleMessage, Body, RuleAttrs, WordAt, HalfAt, ByteAt, Drop;
    var m := RuleMessage(kind, rule);
    RuleShape(kind, rule, []);
    RequestFlags(kind, rule);
    BodyLayout(rule);
    assert m + [] == m && Body(RuleAttrs(rule)) + [] == Body(RuleAttrs(rule));
    DropReads(m, RTCAN, 0);
    DropReads(m, RTCAN, 2);
    DropReads(m, RTCAN, 4);
    DropReads(m, RTCAN, 8);
    DropReads(m, RTCAN, 10);
    DropReads(m, RTCAN, 12);
    DropReads(m, RTCAN, 16);
    DropReads(m, RTCAN, 18);
    DropReads(m, RTCAN, 20);
    DropReads(m, RTCAN, 24);
  }

  lemma RequestFlags(kind: Half, rule: Rule)
    ensures HalfAt(RuleMessage(kind, rule), 6) == NLM_F_REQUEST_ACK
  {
    var m := RuleMessage(kind, rule);
    var canFlags: Half := if rule.echoOption && rule.echo == 1 then 1 else 0;
    var body := Body(RuleAttrs(rule));
    var header := MessageHeader(RTCAN + |body|, kind, NLM_F_REQUEST_ACK, canFlags);
    assert m == header + body && m[6] == header[6] && m[7] == header[7];
    hide Body, RuleAttrs, RuleMessage;
    assert header[6] == HalfBytes(NLM_F_REQUEST_ACK)[0] && header[7] == HalfBytes(NLM_F_REQUEST_ACK)[1];
  }

  lemma AttrLayout(kind: Half, x: Word, t: seq<Byte>)
    ensures var s := AttrBytes(Attr(kind, WordBytes(x))) + t;
            HalfAt(s, 0) == 8 && HalfAt(s, 2) == kind && WordAt(s, 4) == x && Drop(s, 8) == t
  {
    var s := AttrBytes(Attr(kind, WordBytes(x))) + t;
    EightAligned();
    AttrReads(Attr(kind, WordBytes(x)), t);
    WordReads(x, Zeros(Align(8) - 8) + t);
    DropReads(s, 4, 0);
    hide WordAt, HalfAt, AttrBytes, WordBytes, Drop, Align, Zeros;
  }

  lemma FilterLayout(rule: Rule)
    ensures var s := AttrBytes(Filter(rule));
            HalfAt(s, 0) == 12 && HalfAt(s, 2) == CGW_FILTER && WordAt(s, 4) == rule.canId && WordAt(s, 8) == rule.canMask
  {
    var s, id, mask := AttrBytes(Filter(rule)), WordBytes(rule.canId), WordBytes(rule.canMask);
    AttrReads(Filter(rule), []);
    assert s + [] == s;
    var pad := Zeros(Align(12) - 12);
    assert (id + mask) + (pad + []) == id + (mask + pad);
    WordReads(rule.canId, mask + pad);
    WordReads(rule.canMask, pad);
    assert Drop(id + (mask + pad), 4) == mask + pad;
    DropReads(s, 4, 0);
    DropReads(s, 4, 4);
    DropReads(id + (mask + pad), 4, 0);
    hide WordAt, HalfAt, AttrBytes, WordBytes, Drop;
  }

  lemma BodyIs(rule: Rule)
    ensures var b, tail := Body(RuleAttrs(rule)), if rule.filterOption then AttrBytes(Filter(rule)) else [];
            && b == AttrBytes(Attr(CGW_SRC_IF, WordBytes(rule.src))) + (AttrBytes(Attr(CGW_DST_IF, WordBytes(rule.dst))) + tail)
            && |b| == (if rule.filterOption then 28 else 16)
  {
    IfsFit([Attr(CGW_SRC_IF, WordBytes(rule.src)), Attr(CGW_DST_IF, WordBytes(rule.dst))], Filter(rule));
    hide AttrBytes, WordBytes, Align;
  }

  lemma BodyLayout(rule: Rule)
    ensures var b := Body(RuleAttrs(rule));
            && |b| == (if rule.filterOption then 28 else 16)
            && HalfAt(b, 0) == 8 && HalfAt(b, 2) == CGW_SRC_IF && WordAt(b, 4) == rule.src
            && HalfAt(b, 8) == 8 && HalfAt(b, 10) == CGW_DST_IF && WordAt(b, 12) == rule.dst
            && (rule.filterOption ==>
                  HalfAt(b, 16) == 12 && HalfAt(b, 18) == CGW_FILTER && WordAt(b, 20) == rule.canId && WordAt(b, 24) == rule.canMask)
  {
    hide AttrBytes, WordBytes, Body, RuleAttrs, Align, WordAt, HalfAt, Drop, Filter;
    BodyIs(rule);
    var b, tail := Body(RuleAttrs(rule)), if rule.filterOption then AttrBytes(Filter(rule)) else [];
    AttrLayout(CGW_SRC_IF, rule.src, AttrBytes(Attr(CGW_DST_IF, WordBytes(rule.dst))) + tail);
    AttrLayout(CGW_DST_IF, rule.dst, tail);
    FilterLayout(rule);
    var b1 := Drop(b, 8);
    DropReads(b, 8, 0);
    DropReads(b, 8, 2);
    DropReads(b, 8, 4);
    if rule.filterOption {
      DropReads(b, 8, 8);
      DropReads(b, 8, 10);
      DropReads(b, 8, 12);
      DropReads(b, 8, 16);
      DropReads(b1, 8, 0);
      DropReads(b1, 8, 2);
      DropReads(b1, 8, 4);
      DropReads(b1, 8, 8);
    }
  }

  /** A listing closed by a DONE header gives back the rules and reports the end. */
  lemma ListingRoundTrip(rules: seq<Rule>, done: seq<Byte>)
    requires HEADER <= WordAt(done, 0) <= |done| && HalfAt(done, 4) == NLMSG_DONE
    ensures var s := RuleMessages(RTM_NEWROUTE, rules) + done;
            Parse(s, |s|) == Listing(ListedAll(rules), 1)
  {
    hide RuleMessages, Parse, ListedAll, WordAt, HalfAt;
    MessagesRoundTrip(RTM_NEWROUTE, rules, done, |done|);
    NothingMore(done);
    assert ListedAll(rules) + [] == ListedAll(rules);
  }

  /** A listing cut between two messages: the rules so far, and more is expected. */
  lemma PartialListing(rules: seq<Rule>)
    ensures var s := RuleMessages(RTM_NEWROUTE, rules);
            Parse(s, |s|) == Listing(ListedAll(rules), 0)
  {
    hide RuleMessages, Parse, ListedAll;
    var s := RuleMessages(RTM_NEWROUTE, rules);
    MessagesRoundTrip(RTM_NEWROUTE, rules, [], 0);
    NothingMore([]);
    assert s + [] == s && ListedAll(rules) + [] == ListedAll(rules);
  }

  /** A listing that is broken off: behind the rules comes an error message, or a message that is none of the gateway's. */
  lemma ListingBrokenOff(rules: seq<Rule>, t: seq<Byte>)
    requires HEADER <= WordAt(t, 0) <= |t| && HalfAt(t, 4) != NLMSG_DONE
    requires HalfAt(t, 4) == NLMSG_ERROR || ByteAt(t, 16) != AF_CAN || ByteAt(t, 17) != CGW_TYPE_CAN_CAN
    ensures var s := RuleMessages(RTM_NEWROUTE, rules) + t;
            Parse(s, |s|) == Listing(ListedAll(rules), -1)
  {
    hide RuleMessages, ListedAll, WordAt, HalfAt, ByteAt, ParsedRule, Drop, Align;
    MessagesRoundTrip(RTM_NEWROUTE, rules, t, |t|);
    assert ListedAll(rules) + [] == ListedAll(rules);
  }

  /** A listing whose last message is cut, or says a length it cannot have: the rules so far, and more is expected. */
  lemma ListingCut(rules: seq<Rule>, t: seq<Byte>)
    requires |t| < HEADER || WordAt(t, 0) < HEADER || WordAt(t, 0) > |t|
    ensures var s := RuleMessages(RTM_NEWROUTE, rules) + t;
            Parse(s, |s|) == Listing(ListedAll(rules), 0)
  {
    hide RuleMessages, ListedAll, WordAt, HalfAt, ByteAt, ParsedRule, Drop, Align;
    MessagesRoundTrip(RTM_NEWROUTE, rules, t, |t|);
    assert ListedAll(rules) + [] == ListedAll(rules);
  }

  /** Only the invert bit is cleared, and clearing it again changes nothing. */
  lemma ClearInvertExact(id: Word)
    ensures ClearInvert(id) / CAN_INV_FILTER % 2 == 0 && ClearInvert(ClearInvert(id)) == ClearInvert(id)
    ensures ClearInvert(id) % CAN_INV_FILTER == id % CAN_INV_FILTER
    ensures ClearInvert(id) / (2 * CAN_INV_FILTER) == id / (2 * CAN_INV_FILTER)
  {}

  // ---- the listing in memory ------------------------------------------------------------------

  /** socketcan_gw_rules_t: a growing array of rules. */
  class RuleTable {
    var rules: array?<Rule>
    var ruleNum: nat
    var arrayNum: nat

    ghost predicate Valid()
      reads this, rules
    {
      if rules == null then ruleNum == 0 else ruleNum <= arrayNum == rules.Length && arrayNum >= 2
    }

    ghost function Contents(): seq<Rule>
      requires Valid()
      reads this, rules
    {
      if rules == null then [] else rules[..ruleNum]
    }

    constructor ()
      ensures Valid() && Contents() == [] && rules == null
    {
      rules, ruleNum, arrayNum := null, 0, 0;
    }

    /** push_gw_rule: two places at first, twice as many whenever they are used up. */
    method Push(rule: Rule)
      requires Valid()
      modifies this, rules
      ensures Valid() && Contents() == old(Contents()) + [rule]
      ensures rules != null && (rules != old(rules) ==> fresh(rules))
    {
      if rules == null {
        ruleNum, arrayNum := 0, 2;
        rules := new Rule[arrayNum](_ => EMPTY);
      }
      if ruleNum >= arrayNum {
        arrayNum := arrayNum * 2;
        var more := new Rule[arrayNum](_ => EMPTY);
        forall i | 0 <= i < ruleNum {
          more[i] := rules[i];
        }
        assert more[..ruleNum] == rules[..ruleNum];
        rules := more;
      }
      rules[ruleNum] := rule;
      ruleNum := ruleNum + 1;
    }
  }

  /** A number read from the receive buffer. */
  method ReadHalf(rxbuf: array<Byte>, at: nat) returns (x: Half)
    ensures x == HalfAt(rxbuf[..], at)
  {
    var low: Byte := 0;
    var high: Byte := 0;
    if at < rxbuf.Length {
      low := rxbuf[at];
    }
    if at + 1 < rxbuf.Length {
      high := rxbuf[at + 1];
    }
    x := low + 0x100 * high;
  }

  method ReadWord(rxbuf: array<Byte>, at: nat) returns (x: Word)
    ensures x == WordAt(rxbuf[..], at)
  {
    var low: int := ReadHalf(rxbuf, at);
    var high: int := ReadHalf(rxbuf, at + 2);
    x := low + 0x1_0000 * high;
  }

  lemma DropDrop(s: seq<Byte>, n: nat, k: nat)
    ensures Drop(Drop(s, n), k) == Drop(s, n + k)
  {}

  /** The walk that takes the interfaces of a message; `at` is where its attributes start. */
  method WalkIfs(rxbuf: array<Byte>, at: nat, left: int, rule0: Rule) returns (rule: Rule)
    ensures rule == ScanIfs(Drop(rxbuf[..], at), left, rule0)
  {
    hide HalfAt, WordAt, Drop, Align;
    rule := rule0;
    var rta: nat := at;
    var rtlen := left;
    while true
      invariant ScanIfs(Drop(rxbuf[..], rta), rtlen, rule) == ScanIfs(Drop(rxbuf[..], at), left, rule0)
      decreases rtlen
    {
      DropReads(rxbuf[..], rta, 0);
      DropReads(rxbuf[..], rta, 2);
      DropReads(rxbuf[..], rta, 4);
      var rtaLen := ReadHalf(rxbuf, rta);
      if rtlen < 4 || rtaLen < 4 || rtaLen > rtlen {
        break;
      }
      var kind := ReadHalf(rxbuf, rta + 2);
      var value := ReadWord(rxbuf, rta + 4);
      if kind == CGW_SRC_IF {
        rule := rule.(src := value);
      } else if kind == CGW_DST_IF {
        rule := rule.(dst := value);
      }
      DropDrop(rxbuf[..], rta, Align(rtaLen));
      rta, rtlen := rta + Align(rtaLen), rtlen - Align(rtaLen);
    }
  }

  /** The walk that takes the filter. */
  method WalkFilter(rxbuf: array<Byte>, at: nat, left: int, rule0: Rule) returns (rule: Rule)
    ensures rule == ScanFilter(Drop(rxbuf[..], at), left, rule0)
  {
    hide HalfAt, WordAt, Drop, Align;
    rule := rule0;
    var rta: nat := at;
    var rtlen := left;
    while true
      invariant ScanFilter(Drop(rxbuf[..], rta), rtlen, rule) == ScanFilter(Drop(rxbuf[..], at), left, rule0)
      decreases rtlen
    {
      DropReads(rxbuf[..], rta, 0);
      DropReads(rxbuf[..], rta, 2);
      DropReads(rxbuf[..], rta, 4);
      DropReads(rxbuf[..], rta, 8);
      var rtaLen := ReadHalf(rxbuf, rta);
      if rtlen < 4 || rtaLen < 4 || rtaLen > rtlen {
        break;
      }
      var kind := ReadHalf(rxbuf, rta + 2);
      if kind == CGW_FILTER {
        var id := ReadWord(rxbuf, rta + 4);
        var mask := ReadWord(rxbuf, rta + 8);
        rule := rule.(canId := ClearInvert(id), canMask := mask);
      }
      DropDrop(rxbuf[..], rta, Align(rtaLen));
      rta, rtlen := rta + Align(rtaLen), rtlen - Align(rtaLen);
    }
  }

  /** One message's rule. */
  method ReadRule(rxbuf: array<Byte>, nlh: nat) returns (rule: Rule)
    ensures rule == ParsedRule(Drop(rxbuf[..], nlh))
  {
    hide HalfAt, WordAt, Drop;
    DropReads(rxbuf[..], nlh, 0);
    DropReads(rxbuf[..], nlh, 18);
    DropDrop(rxbuf[..], nlh, RTCAN);
    var length := ReadWord(rxbuf, nlh);
    rule := WalkIfs(rxbuf, nlh + RTCAN, length - RTCAN, EMPTY);
    var flags := ReadHalf(rxbuf, nlh + 18);
    rule := rule.(echoOption := true, filterOption := true, echo := flags % 2);
    rule := WalkFilter(rxbuf, nlh + RTCAN, length - RTCAN, rule);
  }

  /** Is the next message a rule (`verdict` None), or does the listing end with this result? */
  method NextMessage(rxbuf: array<Byte>, nlh: nat, left: int) returns (verdict: Option<int>, length: Word)
    ensures verdict.Some? ==> Parse(Drop(rxbuf[..], nlh), left) == Listing([], verdict.value)
    ensures verdict.None? ==>
              && length == WordAt(Drop(rxbuf[..], nlh), 0) && left >= length >= HEADER
              && (var rest := Parse(Drop(rxbuf[..], nlh + Align(length)), left - Align(length));
                  Parse(Drop(rxbuf[..], nlh), left) == rest.(rules := [ParsedRule(Drop(rxbuf[..], nlh))] + rest.rules))
  {
    hide HalfAt, WordAt, ByteAt, Drop, Align, ParsedRule;
    DropReads(rxbuf[..], nlh, 0);
    DropReads(rxbuf[..], nlh, 4);
    DropReads(rxbuf[..], nlh, 16);
    DropReads(rxbuf[..], nlh, 17);
    length := ReadWord(rxbuf, nlh);
    if left < HEADER || length < HEADER || length > left {
      return Some(0), length;
    }
    var kind := ReadHalf(rxbuf, nlh + 4);
    if kind == NLMSG_ERROR {
      return Some(-1), length;
    }
    if kind == NLMSG_DONE {
      return Some(1), length;
    }
    var family := ReadByte(rxbuf, nlh + 16);
    if family != AF_CAN {
      return Some(-1), length;
    }
    var gwtype := ReadByte(rxbuf, nlh + 17);
    if gwtype != CGW_TYPE_CAN_CAN {
      return Some(-1), length;
    }
    DropDrop(rxbuf[..], nlh, Align(length));
    ParseStep(Drop(rxbuf[..], nlh), left);
    verdict := None;
  }

  /** parse_listing_data: the rules of the messages in the buffer join those already listed. */
  method ParseListingData(table: RuleTable, rxbuf: array<Byte>, len: nat) returns (result: int)
    requires table.Valid()
    modifies table, table.rules
    ensures table.Valid()
    ensures Listing(table.Contents(), result) == var l := Parse(old(rxbuf[..]), len); l.(rules := old(table.Contents()) + l.rules)
  {
    hide HalfAt, WordAt, ByteAt, Drop, Align, ParsedRule, Parse;
    var nlh: nat := 0;
    var left: int := len;
    ghost var s := rxbuf[..];
    ghost var before := table.Contents();
    DropAll(s);
    while true
      invariant table.Valid() && rxbuf[..] == s
      invariant table.rules != null && table.rules != old(table.rules) ==> fresh(table.rules)
      invariant Joined(before, Parse(s, len)) == Joined(table.Contents(), Parse(Drop(s, nlh), left))
      decreases left
    {
      var verdict, length := NextMessage(rxbuf, nlh, left);
      if verdict.Some? {
        assert table.Contents() + [] == table.Contents();
        return verdict.value;
      }
      var rule := ReadRule(rxbuf, nlh);
      ghost var rest := Parse(Drop(s, nlh + Align(length)), left - Align(length));
      assert (table.Contents() + [rule]) + rest.rules == table.Contents() + ([rule] + rest.rules);
      table.Push(rule);
      nlh, left := nlh + Align(length), left - Align(length);
    }
  }

  ghost function Joined(before: seq<Rule>, l: Listing): Listing {
    l.(rules := before + l.rules)
  }

  lemma DropAll(s: seq<Byte>)
    ensures Drop(s, 0) == s
  {}

  method ReadByte(rxbuf: array<Byte>, at: nat) returns (b: Byte)
    ensures b == ByteAt(rxbuf[..], at)
  {
    b := 0;
    if at < rxbuf.Length {
      b := rxbuf[at];
    }
  }
}
