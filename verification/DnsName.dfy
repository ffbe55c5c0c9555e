/** Domain names on the wire (net/dns.lua, sections 3.1 and 4.1.4 of RFC 1035).

    A packet is a sequence of bytes; positions count from 0, where the source counts from 1.
    Names are byte strings in dotted form, each label followed by a dot.
 */
module DnsName {
  import opened Wrappers
  import opened ByteStrings

  const DOT: Byte := 0x2E
  const COMPRESSED: Byte := 0xC0
  const MAX_JUMPS := 20

  datatype Error = OutOfBounds | TooManyPointers

  /** A name, and the position just past it. */
  datatype Parsed = Parsed(text: Bytes, next: nat) | Failed(error: Error)

  // ---- What a name at a position means ----

  /** The labels from `pos` on, dotted, following pointers. A name that goes through a pointer
      ends where its first pointer ends. */
  function Walk(packet: Bytes, pos: nat, pointers: nat): (r: Parsed)
    requires pointers < MAX_JUMPS
    ensures r.Parsed? ==> pos < r.next <= |packet|
    decreases MAX_JUMPS - pointers, |packet| - pos
  {
    if pos >= |packet| then Failed(OutOfBounds) else
    var len := packet[pos];
    if len == 0 then Parsed([], pos + 1)
    else if len >= COMPRESSED then
      if pointers + 1 >= MAX_JUMPS then Failed(TooManyPointers)
      else if pos + 1 >= |packet| then Failed(OutOfBounds)
      else
        var r := Walk(packet, Target(packet, pos), pointers + 1);
        if r.Failed? then r else Parsed(r.text, pos + 2)
    else if pos + 1 + len >= |packet| then Failed(OutOfBounds)
    else
      var r := Walk(packet, pos + 1 + len, pointers);
      if r.Failed? then r else Parsed(packet[pos + 1..pos + 1 + len] + [DOT] + r.text, r.next)
  }

  /** Where a pointer points. */
  function Target(packet: Bytes, pos: nat): nat
    requires pos + 1 < |packet| && packet[pos] >= COMPRESSED
  {
    (packet[pos] - COMPRESSED) * 0x100 + packet[pos + 1]
  }

  /** The name at `pos`; the root is written as a single dot. */
  function NameAt(packet: Bytes, pos: nat): (r: Parsed)
    ensures r.Parsed? ==> pos < r.next <= |packet|
  {
    if pos < |packet| && packet[pos] == 0 then Parsed([DOT], pos + 1) else Walk(packet, pos, 0)
  }

  // ---- The decoder ----

  /** Labels read so far, then the rest; the position of the first pointer wins. */
  ghost function Resume(text: Bytes, remember: Option<nat>, rest: Parsed): Parsed {
    if rest.Failed? then rest
    else Parsed(text + rest.text, if remember.Some? then remember.value else rest.next)
  }

  /** Reading one label leaves the name unchanged. */
  lemma LabelStep(packet: Bytes, pos: nat, pointers: nat, text: Bytes, remember: Option<nat>)
    requires pointers < MAX_JUMPS && pos < |packet| && 0 < packet[pos] < COMPRESSED
    ensures var len := packet[pos];
      Resume(text, remember, Walk(packet, pos, pointers)) ==
      Resume(text + (Slice(packet, pos + 1, len) + [DOT]), remember, Walk(packet, pos + 1 + len, pointers))
  {
  }

  /** Following one pointer leaves the name unchanged. */
  lemma PointerStep(packet: Bytes, pos: nat, pointers: nat, text: Bytes, remember: Option<nat>)
    requires pointers + 1 < MAX_JUMPS && pos + 1 < |packet| && packet[pos] >= COMPRESSED
    ensures Resume(text, remember, Walk(packet, pos, pointers)) ==
      Resume(text, if remember.Some? then remember else Some(pos + 2), Walk(packet, Target(packet, pos), pointers + 1))
  {
  }

  class Resolver {
    var packet: Bytes
    var offset: nat

    constructor (packet: Bytes)
      ensures this.packet == packet && offset == 0
    {
      this.packet, offset := packet, 0;
    }

    /** byte() */
    method ReadByte() returns (b: Option<Byte>)
      modifies this`offset
      ensures b.None? <==> old(offset) >= |packet|
      ensures b.Some? ==> b.value == packet[old(offset)] && offset == old(offset) + 1
      ensures b.None? ==> offset == old(offset)
    {
      if offset >= |packet| {
        return None;
      }
      b := Some(packet[offset]);
      offset := offset + 1;
    }

    /** sub(): reads up to `len` bytes without complaint, but always advances by `len`. */
    method Sub(len: nat) returns (s: Bytes)
      modifies this`offset
      ensures offset == old(offset) + len
      ensures s == Slice(packet, old(offset), len)
    {
      s := Slice(packet, offset, len);
      offset := offset + len;
    }

    /** The pointer whose first byte, `len`, was just read. */
    method FollowPointer(len: Byte, pointers: nat, remember: Option<nat>, ghost text: Bytes)
      returns (error: Option<Error>, remember': Option<nat>)
      requires pointers < MAX_JUMPS && 0 < offset <= |packet| && packet[offset - 1] == len >= COMPRESSED
      modifies this`offset
      ensures error.None? ==>
        && pointers + 1 < MAX_JUMPS
        && Resume(text, remember, Walk(packet, old(offset) - 1, pointers)) ==
           Resume(text, remember', Walk(packet, offset, pointers + 1))
      ensures error.Some? ==> Walk(packet, old(offset) - 1, pointers) == Failed(error.value)
    {
      if pointers + 1 >= MAX_JUMPS {
        return Some(TooManyPointers), remember;
      }
      var low := ReadByte();
      if low.None? {
        return Some(OutOfBounds), remember;
      }
      PointerStep(packet, offset - 2, pointers, text, remember);
      error, remember' := None, if remember.Some? then remember else Some(offset);
      offset := (len - COMPRESSED) * 0x100 + low.value;
    }

    /** The label whose length, `len`, was just read. */
    method ReadLabel(len: Byte, ghost pointers: nat, ghost remember: Option<nat>, text: Bytes) returns (text': Bytes)
      requires pointers < MAX_JUMPS && 0 < offset <= |packet| && packet[offset - 1] == len && 0 < len < COMPRESSED
      modifies this`offset
      ensures offset == old(offset) + len
      ensures Resume(text, remember, Walk(packet, old(offset) - 1, pointers)) ==
              Resume(text', remember, Walk(packet, offset, pointers))
    {
      LabelStep(packet, offset - 1, pointers, text, remember);
      var part := Sub(len);
      text' := text + (part + [DOT]);
    }

    /** name() */
    method Name() returns (result: Parsed)
      modifies this`offset
      ensures result == NameAt(packet, old(offset))
      ensures result.Parsed? ==> offset == result.next
    {
      ghost var goal := NameAt(packet, offset);
      var first := ReadByte();
      if first.None? {
        return Failed(OutOfBounds);
      }
      var len := first.value;
      if len == 0 {
        return Parsed([DOT], offset);
      }
      var remember: Option<nat>, pointers, text: Bytes := None, 0, [];
      while len > 0
        invariant pointers < MAX_JUMPS
        invariant 0 < offset <= |packet| && packet[offset - 1] == len
        invariant goal == Resume(text, remember, Walk(packet, offset - 1, pointers))
        decreases MAX_JUMPS - pointers, |packet| - offset
      {
        if len >= COMPRESSED {
          var error;
          error, remember := FollowPointer(len, pointers, remember, text);
          if error.Some? {
            return Failed(error.value);
          }
          pointers := pointers + 1;
        } else {
          text := ReadLabel(len, pointers, remember, text);
        }
        var next := ReadByte();
        if next.None? {
          return Failed(OutOfBounds);
        }
        len := next.value;
      }
      if remember.Some? {
        offset := remember.value;
      }
      result := Parsed(text, offset);
    }

    /** word(): two bytes, the high one first */
    method ReadWord() returns (w: Option<nat>)
      modifies this`offset
      ensures w.Some? <==> old(offset) + 2 <= |packet|
      ensures w.Some? ==> w.value == WordAt(packet, old(offset)) && offset == old(offset) + 2
      ensures w.None? ==> offset == old(offset)
    {
      if offset + 2 > |packet| {
        return None;
      }
      w := Some(WordAt(packet, offset));
      offset := offset + 2;
    }

    /** The ten bytes of a record between its name and its data. */
    method ReadFixed(name: Bytes) returns (record: Option<Record>)
      modifies this`offset
      ensures record.Some? <==> old(offset) + 10 <= |packet|
      ensures record.Some? ==> offset == old(offset) + 10 && record.value == FixedAt(packet, old(offset), name)
    {
      var rtype := ReadWord();
      if rtype.None? { return None; }
      var rclass := ReadWord();
      if rclass.None? { return None; }
      var high := ReadWord();
      if high.None? { return None; }
      var low := ReadWord();
      if low.None? { return None; }
      var rdlength := ReadWord();
      if rdlength.None? { return None; }
      record := Some(Record(name, rtype.value, rclass.value, 0x10000 * high.value + low.value, rdlength.value, []));
    }

    /** rr(). `parser` says where the parser of the record's type leaves the offset, if there is
        such a parser and it does not fail; it may look anywhere in the packet. */
    method ReadRecord(parser: Option<ParserResult>) returns (record: Option<Record>)
      modifies this`offset
      ensures record.Some? <==>
        && NameAt(packet, old(offset)).Parsed?
        && NameAt(packet, old(offset)).next + 10 <= |packet|
        && parser != Some(Raises)
      ensures record.Some? ==>
        var name := NameAt(packet, old(offset));
        var data := name.next + 10;
        var fixed := FixedAt(packet, name.next, name.text);
        && offset == data + fixed.rdlength
        && record.value == fixed.(rdata := Slice(packet, data, fixed.rdlength))
    {
      var name := Name();
      if name.Failed? {
        return None;
      }
      record := ReadFixed(name.text);
      if record.None? {
        return None;
      }
      var remember := offset;
      if parser.Some? {
        if parser.value == Raises {
          return None;
        }
        offset := parser.value.offset;
      }
      offset := remember;
      var rdata := Sub(record.value.rdlength);
      record := Some(record.value.(rdata := rdata));
    }
  }

  datatype Record = Record(name: Bytes, rtype: nat, rclass: nat, ttl: nat, rdlength: nat, rdata: Bytes)

  datatype ParserResult = StopsAt(offset: nat) | Raises

  function WordAt(packet: Bytes, pos: nat): nat
    requires pos + 2 <= |packet|
  {
    var high: int := packet[pos];
    0x100 * high + packet[pos + 1]
  }

  /** The high byte comes first. */
  lemma WordBytes(packet: Bytes, pos: nat)
    requires pos + 2 <= |packet|
    ensures WordAt(packet, pos) / 0x100 == packet[pos] && WordAt(packet, pos) % 0x100 == packet[pos + 1]
  {
  }

  /** The fields of section 4.1.3 of RFC 1035 that follow the name, without the data. */
  function FixedAt(packet: Bytes, pos: nat, name: Bytes): Record
    requires pos + 10 <= |packet|
  {
    Record(name, WordAt(packet, pos), WordAt(packet, pos + 2),
           0x10000 * WordAt(packet, pos + 4) + WordAt(packet, pos + 6), WordAt(packet, pos + 8), [])
  }

  /** The bytes of a packet from `pos`, at most `len` of them. */
  function Slice(packet: Bytes, pos: nat, len: nat): Bytes {
    if pos >= |packet| then []
    else if pos + len > |packet| then packet[pos..]
    else packet[pos..pos + len]
  }

  /** They are the bytes from `pos` on, fewer than `len` only at the end of the packet. */
  lemma SliceBytes(packet: Bytes, pos: nat, len: nat)
    ensures |Slice(packet, pos, len)| == (if pos >= |packet| then 0 else if pos + len > |packet| then |packet| - pos else len)
    ensures forall k :: 0 <= k < |Slice(packet, pos, len)| ==> Slice(packet, pos, len)[k] == packet[pos + k]
  {
  }

  // ---- Encoding ----

  /** The parts of a name between its dots; empty parts do not count. `part` is what
      precedes `name` since the last dot. */
  function Labels(name: Bytes, part: Bytes := []): seq<Bytes>
    decreases name
  {
    if name == [] then (if part == [] then [] else [part])
    else if name[0] == DOT then (if part == [] then [] else [part]) + Labels(name[1..], [])
    else Labels(name[1..], part + [name[0]])
  }

  function Dotted(labels: seq<Bytes>): Bytes {
    if labels == [] then [] else labels[0] + [DOT] + Dotted(labels[1..])
  }

  predicate Fit(labels: seq<Bytes>) {
    forall i :: 0 <= i < |labels| ==> |labels[i]| < 256
  }

  function Encoded(labels: seq<Bytes>): Bytes
    requires Fit(labels)
  {
    if labels == [] then [0] else [|labels[0]|] + labels[0] + Encoded(labels[1..])
  }

  /** Labels that a decoder does not take for a pointer; section 3.1 of RFC 1035 allows up to 63 bytes. */
  ghost predicate Decodable(labels: seq<Bytes>) {
    forall i :: 0 <= i < |labels| ==> 0 < |labels[i]| < COMPRESSED
  }

  /** A label in the midst of a packet. */
  lemma LabelInPacket(pre: Bytes, l: Bytes, rest: Bytes, post: Bytes)
    requires |l| < 256
    ensures var packet := pre + ([|l|] + l + rest) + post;
      && packet == (pre + [|l|] + l) + rest + post
      && packet[|pre|] == |l| && packet[|pre| + 1..|pre| + 1 + |l|] == l
  {
  }

  /** Some labels without the end mark. */
  function Body(labels: seq<Bytes>): Bytes
    requires Fit(labels)
  {
    if labels == [] then [] else [|labels[0]|] + labels[0] + Body(labels[1..])
  }

  /** A name with some text before it. */
  function Prefixed(text: Bytes, r: Parsed): Parsed {
    if r.Failed? then r else Parsed(text + r.text, r.next)
  }

  lemma PrefixedTwice(a: Bytes, b: Bytes, r: Parsed)
    ensures Prefixed(a, Prefixed(b, r)) == Prefixed(a + b, r) && Prefixed([], r) == r
  {
    if r.Parsed? {
      assert a + (b + r.text) == (a + b) + r.text && [] + r.text == r.text;
    }
  }

  lemma WalkLabel(packet: Bytes, pos: nat, l: Bytes, pointers: nat)
    requires 0 < |l| < COMPRESSED && pointers < MAX_JUMPS
    requires pos + 1 + |l| <= |packet| && packet[pos] == |l| && packet[pos + 1..pos + 1 + |l|] == l
    ensures Walk(packet, pos, pointers) == Prefixed(l + [DOT], Walk(packet, pos + 1 + |l|, pointers))
  {
  }

  /** The packet holds the labels at `pos`. */
  ghost predicate HasBody(packet: Bytes, pos: nat, labels: seq<Bytes>)
    requires Fit(labels)
    decreases labels
  {
    labels == [] ||
    var l := labels[0];
    && pos + 1 + |l| <= |packet| && packet[pos] == |l| && packet[pos + 1..pos + 1 + |l|] == l
    && HasBody(packet, pos + 1 + |l|, labels[1..])
  }

  lemma {:induction false} BodyInPacket(pre: Bytes, labels: seq<Bytes>, post: Bytes)
    requires Fit(labels)
    ensures HasBody(pre + Body(labels) + post, |pre|, labels)
    decreases labels
  {
    if labels != [] {
      var l := labels[0];
      LabelInPacket(pre, l, Body(labels[1..]), post);
      BodyInPacket(pre + [|l|] + l, labels[1..], post);
    }
  }

  /** Labels in the midst of a packet come before what follows them. */
  lemma {:induction false} WalkBody(packet: Bytes, pos: nat, front: seq<Bytes>, pointers: nat)
    requires Decodable(front) && pointers < MAX_JUMPS && HasBody(packet, pos, front)
    ensures Walk(packet, pos, pointers) == Prefixed(Dotted(front), Walk(packet, pos + |Body(front)|, pointers))
    decreases front
  {
    var r := Walk(packet, pos + |Body(front)|, pointers);
    if front == [] {
      PrefixedTwice([], [], r);
    } else {
      var l := front[0];
      WalkLabel(packet, pos, l, pointers);
      WalkBody(packet, pos + 1 + |l|, front[1..], pointers);
      PrefixedTwice(l + [DOT], Dotted(front[1..]), r);
    }
  }

  lemma {:induction false} EncodedIsBody(labels: seq<Bytes>)
    requires Fit(labels)
    ensures Encoded(labels) == Body(labels) + [0]
  {
    if labels != [] {
      EncodedIsBody(labels[1..]);
      var l := labels[0];
      assert ([|l|] + l) + (Body(labels[1..]) + [0]) == ([|l|] + l + Body(labels[1..])) + [0];
    }
  }

  lemma EndOfBody(pre: Bytes, body: Bytes, post: Bytes)
    ensures pre + (body + [0]) + post == pre + body + ([0] + post)
    ensures (pre + (body + [0]) + post)[|pre| + |body|] == 0
  {
  }

  /** An encoded name in the midst of a packet is decoded to its labels, and decoding stops right after it. */
  lemma EncodedDecodes(pre: Bytes, labels: seq<Bytes>, post: Bytes, pointers: nat)
    requires Decodable(labels) && pointers < MAX_JUMPS
    ensures Walk(pre + Encoded(labels) + post, |pre|, pointers) == Parsed(Dotted(labels), |pre| + |Encoded(labels)|)
  {
    var packet := pre + Encoded(labels) + post;
    EncodedIsBody(labels);
    EndOfBody(pre, Body(labels), post);
    BodyInPacket(pre, labels, [0] + post);
    WalkBody(packet, |pre|, labels, pointers);
    assert Walk(packet, |pre| + |Body(labels)|, pointers) == Parsed([], |pre| + |Body(labels)| + 1);
    assert Dotted(labels) + [] == Dotted(labels);
  }

  ghost predicate DotFree(label': Bytes) {
    label' != [] && DOT !in label'
  }

  /** Splitting a dotted name gives back its labels. */
  lemma {:induction false} LabelsOfDotted(labels: seq<Bytes>)
    requires forall i :: 0 <= i < |labels| ==> DotFree(labels[i])
    ensures Labels(Dotted(labels)) == labels
  {
    if labels != [] {
      LabelsOfDotted(labels[1..]);
      LabelsSkip([], labels[0], [DOT] + Dotted(labels[1..]));
      assert labels[0] + [DOT] + Dotted(labels[1..]) == labels[0] + ([DOT] + Dotted(labels[1..]));
      assert [] + labels[0] == labels[0];
      assert ([DOT] + Dotted(labels[1..]))[1..] == Dotted(labels[1..]);
    }
  }

  lemma {:induction false} LabelsSkip(part: Bytes, run: Bytes, rest: Bytes)
    requires DOT !in run
    ensures Labels(run + rest, part) == Labels(rest, part + run)
    decreases run
  {
    if run == [] {
      assert run + rest == rest && part + run == part;
    } else {
      assert (run + rest)[1..] == run[1..] + rest;
      assert part + run == (part + [run[0]]) + run[1..];
      LabelsSkip(part + [run[0]], run[1..], rest);
    }
  }

  /** What encoding and decoding make of a name: the root for one without labels, else the dotted labels. */
  function Canonical(name: Bytes): Bytes {
    if Labels(name) == [] then [DOT] else Dotted(Labels(name))
  }

  /** No part between dots is empty. */
  lemma {:induction false} LabelsNotEmpty(name: Bytes, part: Bytes)
    ensures forall i :: 0 <= i < |Labels(name, part)| ==> Labels(name, part)[i] != []
    decreases name
  {
    if name != [] {
      LabelsNotEmpty(name[1..], if name[0] == DOT then [] else part + [name[0]]);
    }
  }

  /** A label that a decoder takes for a pointer makes decoding fail, or stop before the end of the encoded name. */
  lemma {:induction false} LongLabelStops(pre: Bytes, labels: seq<Bytes>, post: Bytes, pointers: nat)
    requires Fit(labels) && !Decodable(labels) && pointers < MAX_JUMPS
    requires forall i :: 0 <= i < |labels| ==> labels[i] != []
    ensures var r := Walk(pre + Encoded(labels) + post, |pre|, pointers);
      r.Parsed? ==> r.next < |pre| + |Encoded(labels)|
    decreases labels
  {
    var packet := pre + Encoded(labels) + post;
    var l := labels[0];
    LabelInPacket(pre, l, Encoded(labels[1..]), post);
    if |l| < COMPRESSED {
      assert !Decodable(labels[1..]);
      LongLabelStops(pre + [|l|] + l, labels[1..], post, pointers);
    }
  }

  /** name() undoes encodeName, wherever the encoded name stands in a packet, if and only if no label has 192 bytes or
      more. A name with a longer label is encoded all the same, up to 255 bytes. */
  lemma NameRoundTrip(name: Bytes, pre: Bytes, post: Bytes)
    requires Fit(Labels(name))
    ensures var encoded := Encoded(Labels(name));
      NameAt(pre + encoded + post, |pre|) == Parsed(Canonical(name), |pre| + |encoded|) <==> Decodable(Labels(name))
  {
    var labels := Labels(name);
    var packet := pre + Encoded(labels) + post;
    LabelsNotEmpty(name, []);
    if labels == [] {
      assert Encoded(labels) == [0] && packet[|pre|] == 0;
    } else {
      assert packet[|pre|] == |labels[0]|;
      if Decodable(labels) {
        EncodedDecodes(pre, labels, post, 0);
      } else {
        LongLabelStops(pre, labels, post, 0);
      }
    }
  }

  /** A name of one label of 192 bytes is encoded and does not come back. */
  lemma LongLabelLost(name: Bytes, pre: Bytes, post: Bytes)
    requires |name| == 192 && DOT !in name
    ensures Fit(Labels(name))
    ensures var encoded := Encoded(Labels(name));
      NameAt(pre + encoded + post, |pre|) != Parsed(Canonical(name), |pre| + |encoded|)
  {
    LabelsSkip([], name, []);
    assert name + [] == name && [] + name == name;
    assert Labels(name) == [name];
    assert Labels(name)[0] == name;
    NameRoundTrip(name, pre, post);
  }

  /** A name that is already dotted and has no empty labels is its own canonical form. */
  lemma CanonicalIsFixed(labels: seq<Bytes>)
    requires labels != [] && forall i :: 0 <= i < |labels| ==> DotFree(labels[i])
    ensures Canonical(Dotted(labels)) == Dotted(labels)
  {
    LabelsOfDotted(labels);
  }

  /** encodeName; a label of 256 bytes or more cannot be encoded. */
  method EncodeName(name: Bytes) returns (result: Option<Bytes>)
    ensures result == if Fit(Labels(name)) then Some(Encoded(Labels(name))) else None
  {
    var out: Bytes, part: Bytes, i := [], [], 0;
    while i < |name|
      invariant 0 <= i <= |name|
      invariant Remaining(Labels(name), out, Labels(name[i..], part))
    {
      var rest := name[i..];
      assert rest[0] == name[i] && rest[1..] == name[i + 1..];
      if name[i] != DOT {
        part := part + [name[i]];
      } else if part == [] {
        assert Labels(rest, part) == Labels(rest[1..], []);
      } else {
        assert Labels(rest, part) == [part] + Labels(rest[1..], []);
        RemainingNext(Labels(name), out, part, Labels(rest[1..], []));
        if |part| >= 256 {
          return None;
        }
        out := out + [|part|] + part;
        part := [];
      }
      i := i + 1;
    }
    assert name[i..] == [];
    if part != [] {
      assert Labels(name[i..], part) == [part] + [];
      RemainingNext(Labels(name), out, part, []);
      if |part| >= 256 {
        return None;
      }
      out := out + [|part|] + part;
    }
    result := Some(out + [0]);
  }

  /** `out` is the encoding of all labels but the remaining ones. */
  ghost predicate Remaining(labels: seq<Bytes>, out: Bytes, remaining: seq<Bytes>) {
    && (Fit(labels) <==> Fit(remaining))
    && (Fit(labels) ==> Encoded(labels) == out + Encoded(remaining))
  }

  lemma RemainingNext(labels: seq<Bytes>, out: Bytes, part: Bytes, rest: seq<Bytes>)
    requires Remaining(labels, out, [part] + rest)
    ensures |part| >= 256 ==> !Fit(labels)
    ensures |part| < 256 ==> Remaining(labels, out + [|part|] + part, rest)
  {
  }

  // ---- Pointers ----

  /** A name found with one more pointer already spent is found without it. */
  lemma {:induction false} WalkFewer(packet: Bytes, pos: nat, pointers: nat)
    requires pointers + 1 < MAX_JUMPS
    ensures Walk(packet, pos, pointers + 1).Parsed? ==> Walk(packet, pos, pointers) == Walk(packet, pos, pointers + 1)
    ensures Walk(packet, pos, pointers).Parsed? && Walk(packet, pos, pointers + 1).Failed? ==>
      Walk(packet, pos, pointers + 1).error == TooManyPointers
    decreases MAX_JUMPS - pointers, |packet| - pos
  {
    if pos < |packet| && packet[pos] != 0 {
      var len := packet[pos];
      if len < COMPRESSED {
        if pos + 1 + len < |packet| {
          WalkFewer(packet, pos + 1 + len, pointers);
        }
      } else if pointers + 2 < MAX_JUMPS && pos + 1 < |packet| {
        WalkFewer(packet, Target(packet, pos), pointers + 1);
      }
    }
  }

  /** The two bytes of a pointer to a position below 2^14 (section 4.1.4 of RFC 1035). */
  function PointerTo(pos: nat): Bytes
    requires pos < 0x4000
  {
    [0xC0 + pos / 0x100, pos % 0x100]
  }

  predicate HasPointer(packet: Bytes, pos: nat, to: nat)
    requires to < 0x4000
  {
    pos + 1 < |packet| && packet[pos] == PointerTo(to)[0] && packet[pos + 1] == PointerTo(to)[1]
  }

  /** A pointer leads to the position it was made for. */
  lemma PointerLeads(packet: Bytes, pos: nat, to: nat, pointers: nat)
    requires to < 0x4000 && pointers + 1 < MAX_JUMPS && HasPointer(packet, pos, to)
    ensures var r := Walk(packet, to, pointers + 1);
      Walk(packet, pos, pointers) == if r.Failed? then r else Parsed(r.text, pos + 2)
  {
    assert Target(packet, pos) == to;
  }

  lemma LabelsThen(packet: Bytes, pos: nat, front: seq<Bytes>, text: Bytes, next: nat)
    requires Decodable(front) && HasBody(packet, pos, front)
    requires Walk(packet, pos + |Body(front)|, 0) == Parsed(text, next)
    ensures Walk(packet, pos, 0) == Parsed(Dotted(front) + text, next)
  {
    WalkBody(packet, pos, front, 0);
  }

  lemma NotRoot(packet: Bytes, pos: nat, front: seq<Bytes>, to: nat)
    requires Decodable(front) && HasBody(packet, pos, front) && to < 0x4000 && HasPointer(packet, pos + |Body(front)|, to)
    ensures pos < |packet| && packet[pos] != 0
  {
  }

  lemma NameIsWalk(packet: Bytes, pos: nat)
    requires pos < |packet| && packet[pos] != 0
    ensures NameAt(packet, pos) == Walk(packet, pos, 0)
  {
  }

  /** Labels, then a pointer to a name. */
  lemma LabelsThenPointer(packet: Bytes, pos: nat, front: seq<Bytes>, to: nat, text: Bytes, next: nat)
    requires Decodable(front) && HasBody(packet, pos, front) && to < 0x4000 && HasPointer(packet, pos + |Body(front)|, to)
    requires Walk(packet, to, 1) == Parsed(text, next)
    ensures NameAt(packet, pos) == Parsed(Dotted(front) + text, pos + |Body(front)| + 2)
  {
    PointerLeads(packet, pos + |Body(front)|, to, 0);
    LabelsThen(packet, pos, front, text, pos + |Body(front)| + 2);
    NotRoot(packet, pos, front, to);
    NameIsWalk(packet, pos);
  }

  /** A packet with a name at the end of `pre`, and later some labels and a pointer to that name. */
  function Compressed(pre: Bytes, labels: seq<Bytes>, mid: Bytes, front: seq<Bytes>, post: Bytes): Bytes
    requires Fit(labels) && Fit(front) && |pre| < 0x4000
  {
    (pre + Encoded(labels) + mid) + Body(front) + PointerTo(|pre|) + post
  }

  /** The parts of such a packet. */
  lemma CompressedParts(pre: Bytes, labels: seq<Bytes>, mid: Bytes, front: seq<Bytes>, post: Bytes)
    requires Fit(labels) && Fit(front) && |pre| < 0x4000
    ensures var packet := Compressed(pre, labels, mid, front, post);
      var pos := |pre + Encoded(labels) + mid|;
      && packet == pre + Encoded(labels) + (mid + (Body(front) + (PointerTo(|pre|) + post)))
      && HasBody(packet, pos, front) && HasPointer(packet, pos + |Body(front)|, |pre|)
  {
    var before, b, pointer := pre + Encoded(labels) + mid, Body(front), PointerTo(|pre|);
    Layout(pre, Encoded(labels), mid, b, pointer, post);
    BodyInPacket(before, front, pointer + post);
    PointerAt(before + b, |pre|, post);
  }

  lemma PointerAt(a: Bytes, to: nat, post: Bytes)
    requires to < 0x4000
    ensures HasPointer(a + PointerTo(to) + post, |a|, to)
  {
  }

  /** The parts of a packet, put together in three ways. */
  lemma Layout(pre: Bytes, e: Bytes, mid: Bytes, b: Bytes, p: Bytes, post: Bytes)
    ensures var packet := (pre + e + mid) + b + p + post;
      packet == pre + e + (mid + (b + (p + post))) && packet == (pre + e + mid) + b + (p + post)
  {
  }

  /** A compressed name: labels of its own, then a pointer to where others were encoded before. It is decoded to all of
      them, and decoding stops right after the pointer. */
  lemma CompressedName(pre: Bytes, labels: seq<Bytes>, mid: Bytes, front: seq<Bytes>, post: Bytes)
    requires Decodable(labels) && Decodable(front) && |pre| < 0x4000
    ensures var pos := |pre + Encoded(labels) + mid|;
      NameAt(Compressed(pre, labels, mid, front, post), pos) == Parsed(Dotted(front) + Dotted(labels), pos + |Body(front)| + 2)
  {
    var pos := |pre + Encoded(labels) + mid|;
    CompressedParts(pre, labels, mid, front, post);
    EncodedDecodes(pre, labels, mid + (Body(front) + (PointerTo(|pre|) + post)), 1);
    LabelsThenPointer(Compressed(pre, labels, mid, front, post), pos, front, |pre|, Dotted(labels), |pre| + |Encoded(labels)|);
  }

  /** The name "foo" after a header of 12 bytes, and a pointer to it. */
  lemma PointerExample(header: Bytes)
    requires |header| == 12
    ensures NameAt(header + [3, 0x66, 0x6F, 0x6F, 0, 0xC0, 0x0C], 17) == Parsed([0x66, 0x6F, 0x6F, DOT], 19)
  {
    var foo: Bytes := [0x66, 0x6F, 0x6F];
    var labels := [foo];
    assert labels[1..] == [] && Encoded(labels) == [3] + foo + [0] && Dotted(labels) == foo + [DOT] + [];
    CompressedName(header, labels, [], [], []);
    var before := header + Encoded(labels) + [];
    assert before + Body([]) + PointerTo(12) + [] == header + [3, 0x66, 0x6F, 0x6F, 0, 0xC0, 0x0C];
    assert Dotted([]) + Dotted(labels) == [0x66, 0x6F, 0x6F, DOT];
  }

  /** A name that begins with a pointer is the name it points to (the root is then empty, not a dot), it
      ends right after the pointer, and it fails only if the target fails or needs too many pointers itself. */
  lemma NameThroughPointer(packet: Bytes, pos: nat)
    requires pos + 1 < |packet| && packet[pos] >= COMPRESSED
    ensures var target := NameAt(packet, Target(packet, pos));
      var r := NameAt(packet, pos);
      && (r.Parsed? ==>
            && r.next == pos + 2 && target.Parsed?
            && r.text == if packet[Target(packet, pos)] == 0 then [] else target.text)
      && (r.Failed? && target.Parsed? ==> r.error == TooManyPointers)
  {
    WalkFewer(packet, Target(packet, pos), 0);
  }
}
