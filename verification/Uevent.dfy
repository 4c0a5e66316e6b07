/**
 src/device-control-dynamic-udev.c: the kernel-style event message built for a guest from the properties
 of a device - a header and NUL-terminated parts in a buffer of fixed size.
 */
module Uevent {
  import opened Options
  import opened CText

  const BUFFER_SIZE := 2048
  const DEV := "/dev/"

  datatype Property = Property(name: string, value: string)

  // ---- what the message says ------------------------------------------------------------------

  /** The device name without its directory, if it has that directory. */
  function TrimmedDevname(devnode: string): Option<string> {
    if DEV <= devnode then Some(devnode[|DEV|..]) else None
  }

  /** The property as the guest gets it: not at all, or with the device name trimmed. */
  function Passed(p: Property): (r: Option<seq<Property>>)
  {
    if p.name == "SEQNUM" then Some([])
    else if p.name == "DEVNAME" then
      match TrimmedDevname(p.value)
      case None => None
      case Some(v) => Some([Property(p.name, v)])
    else Some([p])
  }

  /** All properties passed on, unless one of them is a device name outside /dev/. */
  function AllPassed(props: seq<Property>): Option<seq<Property>> {
    if props == [] then Some([])
    else
      var first, rest := Passed(props[0]), AllPassed(props[1..]);
      if first.None? || rest.None? then None else Some(first.value + rest.value)
  }

  function Text(p: Property): string {
    p.name + "=" + p.value
  }

  function Encoded(parts: seq<string>): string {
    if parts == [] then [] else parts[0] + [NUL] + Encoded(parts[1..])
  }

  function Texts(props: seq<Property>): (r: seq<string>)
    ensures |r| == |props| && forall i :: 0 <= i < |r| ==> r[i] == Text(props[i])
  {
    seq(|props|, i requires 0 <= i < |props| => Text(props[i]))
  }

  function Header(action: string, devpath: string): string {
    action + "@" + devpath
  }

  // ---- building it ----------------------------------------------------------------------------

  class Message {
    const message: array<char>
    var used: int

    constructor ()
      ensures message.Length == BUFFER_SIZE && fresh(message) && used == 0
      ensures forall i :: 0 <= i < BUFFER_SIZE ==> message[i] == NUL
    {
      message := new char[BUFFER_SIZE](_ => NUL);
      used := 0;
    }
  }

  function Min(a: int, b: int): int {
    if a < b then a else b
  }

  /** snprintf: at most `size` characters are written, the last of them NUL; the result is the untruncated length. */
  method Snprintf(buf: array<char>, at: nat, size: nat, text: string) returns (ret: nat)
    requires at + size <= buf.Length
    modifies buf
    ensures ret == |text|
    ensures size > 0 ==> buf[at..at + Min(|text|, size - 1)] == text[..Min(|text|, size - 1)] && buf[at + Min(|text|, size - 1)] == NUL
    ensures forall i :: 0 <= i < buf.Length && !(at <= i < at + Min(|text| + 1, size)) ==> buf[i] == old(buf[i])
  {
    ret := |text|;
    if size > 0 {
      var n := Min(|text|, size - 1);
      for i := 0 to n
        invariant forall j :: 0 <= j < i ==> buf[at + j] == text[j]
        invariant forall j :: 0 <= j < buf.Length && !(at <= j < at + i) ==> buf[j] == old(buf[j])
      {
        buf[at + i] := text[i];
      }
      buf[at + n] := NUL;
      assert buf[at..at + n] == text[..n];
    }
  }

  /** One part appended behind those already there, if it fits with its NUL; otherwise the part is cut off and reported. */
  method Append(uim: Message, usage: nat, text: string, ghost sofar: string) returns (ok: bool, usage1: nat)
    requires uim.message.Length == BUFFER_SIZE && usage < BUFFER_SIZE
    requires uim.message[..usage] == sofar
    modifies uim.message
    ensures ok <==> usage + |text| + 1 <= BUFFER_SIZE - 1
    ensures ok ==> usage1 == usage + |text| + 1 && uim.message[..usage1] == sofar + text + [NUL]
    ensures forall i :: (if ok then usage1 else BUFFER_SIZE - 1) <= i < BUFFER_SIZE ==> uim.message[i] == old(uim.message[i])
  {
    var remain := BUFFER_SIZE - 1 - usage;
    var ret := Snprintf(uim.message, usage, remain, text);
    if ret >= remain {
      return false, usage;
    }
    assert text[..|text|] == text;
    assert uim.message[..usage] == old(uim.message[..usage]);
    usage1 := usage + ret + 1;
    assert uim.message[..usage1] == uim.message[..usage] + uim.message[usage..usage + ret] + [uim.message[usage + ret]];
    ok := true;
  }

  /** What is left to be said after the properties before `i`. */
  ghost function Rest(props: seq<Property>, i: nat): Option<string>
    requires i <= |props|
  {
    match AllPassed(props[i..])
    case None => None
    case Some(ps) => Some(Encoded(Texts(ps)))
  }

  lemma RestStep(props: seq<Property>, i: nat)
    requires i < |props|
    ensures var p, now, later := props[i], Rest(props, i), Rest(props, i + 1);
            if p.name == "SEQNUM" then now == later
            else if p.name == "DEVNAME" && TrimmedDevname(p.value).None? then now.None?
            else
              var q := if p.name == "DEVNAME" then p.(value := TrimmedDevname(p.value).value) else p;
              && (now.None? <==> later.None?)
              && (now.Some? ==> now.value == Text(q) + [NUL] + later.value)
  {
    var p := props[i];
    var tail := props[i..];
    assert tail[0] == p && tail[1..] == props[i + 1..];
    var rest := AllPassed(tail[1..]);
    if rest.Some? && Passed(p).Some? {
      var ps := Passed(p).value + rest.value;
      if p.name == "SEQNUM" {
        assert ps == rest.value;
      } else {
        assert Texts(ps)[1..] == Texts(rest.value);
      }
    }
  }

  /** One property: skipped, refused, or appended. */
  method AppendProperty(uim: Message, usage: nat, props: seq<Property>, i: nat, ghost said: string)
      returns (ok: bool, usage1: nat, ghost more: string)
    requires uim.message.Length == BUFFER_SIZE && i < |props| && usage == |said| < BUFFER_SIZE
    requires uim.message[..usage] == said
    modifies uim.message
    ensures !ok && Rest(props, i).Some? ==> usage + |Rest(props, i).value| > BUFFER_SIZE - 1
    ensures ok ==> && usage1 == usage + |more| < BUFFER_SIZE && uim.message[..usage1] == said + more
                   && (Rest(props, i).Some? <==> Rest(props, i + 1).Some?)
                   && (Rest(props, i).Some? ==> said + Rest(props, i).value == said + more + Rest(props, i + 1).value)
    ensures forall j :: (if ok then usage1 else BUFFER_SIZE - 1) <= j < BUFFER_SIZE ==> uim.message[j] == old(uim.message[j])
  {
    hide Rest;
    RestStep(props, i);
    more := [];
    var name, value := props[i].name, props[i].value;
    if name == "SEQNUM" {
      assert said + [] == said;
      return true, usage, [];
    }
    if name == "DEVNAME" {
      var trimmed := TrimmedDevname(value);
      if trimmed.None? {
        return false, usage, [];
      }
      value := trimmed.value;
    }
    ok, usage1 := Append(uim, usage, name + "=" + value, said);
    more := Text(Property(name, value)) + [NUL];
    assert said + more == said + Text(Property(name, value)) + [NUL];
    if Rest(props, i).Some? {
      assert said + (more + Rest(props, i + 1).value) == said + more + Rest(props, i + 1).value;
    }
  }

  /**
   device_control_dynamic_udev_create_injection_message.  It succeeds exactly when every device name is under
   /dev/ and the header and all parts, with their NULs, fit into all but the last character of the buffer;
   that last character is never touched.
   */
  method CreateInjectionMessage(uim: Message, action: string, devpath: string, props: seq<Property>) returns (ret: int)
    requires uim.message.Length == BUFFER_SIZE
    modifies uim, uim.message
    ensures var body := Rest(props, 0);
            && ret == (if body.Some? && |Header(action, devpath)| + 1 + |body.value| <= BUFFER_SIZE - 1 then 0 else -1)
            && (ret == 0 ==> && uim.used == |Header(action, devpath)| + 1 + |body.value|
                             && uim.message[..uim.used] == Header(action, devpath) + [NUL] + body.value)
            && (ret == -1 ==> uim.used == old(uim.used))
    ensures forall i :: (if ret == 0 then uim.used else BUFFER_SIZE - 1) <= i < BUFFER_SIZE ==> uim.message[i] == old(uim.message[i])
  {
    ghost var body := Rest(props, 0);
    ghost var header := Header(action, devpath);
    assert props[|props|..] == [] && Texts([]) == [];
    var ok, usage := Append(uim, 0, action + "@" + devpath, []);
    if !ok {
      return -1;
    }
    assert [] + header + [NUL] == header + [NUL];
    ghost var said := header + [NUL];
    var i := 0;
    while i < |props|
      invariant i <= |props| && 0 <= usage <= BUFFER_SIZE - 1
      invariant uim.message[..usage] == said && |said| == usage && usage >= |header| + 1
      invariant body.Some? <==> Rest(props, i).Some?
      invariant body.Some? ==> header + [NUL] + body.value == said + Rest(props, i).value
      invariant forall j :: usage <= j < BUFFER_SIZE ==> uim.message[j] == old(uim.message[j])
      invariant uim.used == old(uim.used)
    {
      hide *;
      ghost var more;
      ok, usage, more := AppendProperty(uim, usage, props, i, said);
      if !ok {
        assert body.Some? ==> |header + [NUL] + body.value| == |said| + |Rest(props, i).value|;
        return -1;
      }
      said := said + more;
      i := i + 1;
    }
    assert Rest(props, |props|) == Some([]) && said + [] == said;
    uim.used := usage;
    ret := 0;
  }

  // ---- reading it back ------------------------------------------------------------------------

  function Split(bytes: string): seq<string>
    decreases |bytes|
  {
    if bytes == [] then []
    else
      var part := Before(bytes, NUL);
      BeforeLength(bytes, NUL);
      [part] + if |part| < |bytes| then Split(bytes[|part| + 1..]) else []
  }

  lemma {:induction false} SplitEncoded(parts: seq<string>)
    requires forall i :: 0 <= i < |parts| ==> NUL !in parts[i]
    ensures Split(Encoded(parts)) == parts
  {
    if parts != [] {
      var rest := Encoded(parts[1..]);
      var bytes := parts[0] + [NUL] + rest;
      assert Encoded(parts) == bytes;
      BeforeExact(parts[0], NUL, rest);
      assert bytes[|parts[0]| + 1..] == rest;
      assert forall i :: 0 <= i < |parts[1..]| ==> parts[1..][i] == parts[i + 1];
      SplitEncoded(parts[1..]);
    }
  }

  /** name=value, cut at the first '='. */
  function Parsed(part: string): (r: Property)
  {
    var name := Before(part, '=');
    BeforeLength(part, '=');
    Property(name, if |name| < |part| then part[|name| + 1..] else "")
  }

  function AllParsed(parts: seq<string>): seq<Property> {
    if parts == [] then [] else [Parsed(parts[0])] + AllParsed(parts[1..])
  }

  lemma {:induction false} ParsedTexts(props: seq<Property>)
    requires forall i :: 0 <= i < |props| ==> '=' !in props[i].name
    ensures AllParsed(Texts(props)) == props
  {
    if props != [] {
      var p := props[0];
      BeforeExact(p.name, '=', p.value);
      assert p.name + ['='] + p.value == Text(p);
      assert Text(p)[|p.name| + 1..] == p.value;
      assert Texts(props)[1..] == Texts(props[1..]);
      ParsedTexts(props[1..]);
    }
  }

  /** The receiver's view of `bytes`: action and path from the header, then the properties. */
  datatype Event = Event(action: string, devpath: string, props: seq<Property>)

  function Decoded(bytes: string): Option<Event> {
    var parts := Split(bytes);
    if parts == [] then None
    else
      var action := Before(parts[0], '@');
      BeforeLength(parts[0], '@');
      if |action| == |parts[0]| then None
      else Some(Event(action, parts[0][|action| + 1..], AllParsed(parts[1..])))
  }

  ghost predicate Clean(s: string, forbidden: set<char>) {
    forall i :: 0 <= i < |s| ==> s[i] !in forbidden
  }

  ghost predicate WellFormed(props: seq<Property>) {
    forall i :: 0 <= i < |props| ==> Clean(props[i].name, {NUL, '='}) && Clean(props[i].value, {NUL})
  }

  lemma AllPassedUnfold(props: seq<Property>)
    requires props != []
    ensures var first, rest := Passed(props[0]), AllPassed(props[1..]);
            AllPassed(props) == if first.None? || rest.None? then None else Some(first.value + rest.value)
  {}

  ghost predicate Misnamed(p: Property) {
    p.name == "DEVNAME" && !(DEV <= p.value)
  }

  /** Nothing is passed on exactly when some device name is not under /dev/. */
  lemma {:induction false} RefusedExact(props: seq<Property>)
    ensures AllPassed(props).None? <==> exists i :: 0 <= i < |props| && Misnamed(props[i])
  {
    if props != [] {
      AllPassedUnfold(props);
      RefusedExact(props[1..]);
      assert Passed(props[0]).None? <==> Misnamed(props[0]);
      hide AllPassed, Misnamed, Passed;
      assert forall i :: 1 <= i < |props| ==> props[i] == props[1..][i - 1];
    }
  }

  /** The property `q` is what the guest gets to see of `p`. */
  ghost predicate ShownAs(p: Property, q: Property) {
    p.name != "SEQNUM" && q == if p.name == "DEVNAME" && DEV <= p.value then p.(value := p.value[|DEV|..]) else p
  }

  /** What is passed on: SEQNUM dropped, device names relative to /dev/, all else as it was. */
  lemma {:induction false} AllPassedExact(props: seq<Property>)
    requires AllPassed(props).Some?
    ensures forall q :: q in AllPassed(props).value ==> exists p :: p in props && ShownAs(p, q)
    ensures forall p, q :: p in props && ShownAs(p, q) ==> q in AllPassed(props).value
  {
    if props != [] {
      AllPassedUnfold(props);
      var p, rest := props[0], AllPassed(props[1..]);
      AllPassedExact(props[1..]);
      assert props == [p] + props[1..];
      assert forall q :: q in Passed(p).value <==> ShownAs(p, q);
      hide AllPassed, Passed, ShownAs;
    }
  }

  lemma {:induction false} PassedWellFormed(props: seq<Property>)
    requires AllPassed(props).Some? && WellFormed(props)
    ensures WellFormed(AllPassed(props).value)
  {
    if props != [] {
      AllPassedUnfold(props);
      assert forall i :: 0 <= i < |props[1..]| ==> props[1..][i] == props[i + 1];
      PassedWellFormed(props[1..]);
      assert WellFormed(Passed(props[0]).value);
      hide AllPassed, Passed, Clean;
    }
  }

  lemma CleanTexts(props: seq<Property>)
    requires WellFormed(props)
    ensures forall i :: 0 <= i < |props| ==> NUL !in Text(props[i]) && '=' !in props[i].name
  {}

  lemma DecodedMessage(action: string, devpath: string, ps: seq<Property>)
    requires Clean(action, {NUL, '@'}) && Clean(devpath, {NUL}) && WellFormed(ps)
    ensures Decoded(Header(action, devpath) + [NUL] + Encoded(Texts(ps))) == Some(Event(action, devpath, ps))
  {
    var header := Header(action, devpath);
    CleanTexts(ps);
    ParsedTexts(ps);
    assert header == action + ['@'] + devpath && NUL !in header;
    BeforeExact(action, '@', devpath);
    assert header[|action| + 1..] == devpath;
    hide Text, Texts, Parsed, Before, Header, Clean, WellFormed;
    var parts := [header] + Texts(ps);
    assert parts[1..] == Texts(ps);
    assert Encoded(parts) == header + [NUL] + Encoded(Texts(ps));
    hide Encoded;
    SplitEncoded(parts);
  }

  /** A message that was built tells the receiver exactly what was passed on. */
  lemma MessageRoundTrip(action: string, devpath: string, props: seq<Property>)
    requires Clean(action, {NUL, '@'}) && Clean(devpath, {NUL}) && WellFormed(props) && AllPassed(props).Some?
    ensures Rest(props, 0).Some?
    ensures Decoded(Header(action, devpath) + [NUL] + Rest(props, 0).value) == Some(Event(action, devpath, AllPassed(props).value))
  {
    PassedWellFormed(props);
    hide AllPassed, Encoded, Texts, Decoded, Header, Clean, WellFormed;
    assert props[0..] == props;
    DecodedMessage(action, devpath, AllPassed(props).value);
  }
}
