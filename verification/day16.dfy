/**
 * Packet Decoder: the Buoyancy Interchange Transmission System (BITS).
 * A transmission is a string of bits holding one packet: a 3-bit version,
 * a 3-bit type, then either a literal value in 5-bit groups (type 4) or an
 * operator over sub-packets, framed by a 15-bit total length or an 11-bit
 * count. The parser returns the packet's value and the position after it,
 * and adds every version it meets to a running sum.
 *
 * Bits are booleans (`true` for the character "1"). Python's slices are
 * clipped at the end of the string: a field cut short by the end is read
 * from the bits that remain, and an empty field is the ValueError of
 * `int("", 2)`.
 */
module Day16Packets {
  import opened Common
  import opened Bits
  import Text

  // ---------------------------------------------------------------------------
  // Bit fields
  // ---------------------------------------------------------------------------

  /** n in w bits, most significant first. */
  function Bin(n: nat, w: nat): (r: seq<bool>)
    ensures |r| == w
  {
    if w == 0 then [] else Bin(n / 2, w - 1) + [n % 2 == 1]
  }

  /** Reading back a w-bit field gives the number it was written from. */
  lemma {:induction false} BinValue(n: nat, w: nat)
    requires n < Pow2(w)
    ensures BitsValue(Bin(n, w)) == n
  {
    if w > 0 {
      BinValue(n / 2, w - 1);
      assert Bin(n, w)[..w - 1] == Bin(n / 2, w - 1);
    }
  }

  /** `bits[lo:hi]`: Python clips the end of a slice at the end of the string. */
  function Slice(bits: seq<bool>, lo: nat, hi: nat): (r: seq<bool>)
    requires lo < |bits| && lo < hi
    ensures 0 < |r| <= hi - lo
    ensures hi <= |bits| ==> r == bits[lo..hi]
  {
    bits[lo..if hi <= |bits| then hi else |bits|]
  }

  // ---------------------------------------------------------------------------
  // The parser, as functions
  // ---------------------------------------------------------------------------

  /** A parsed packet: its value, the position after it and the running version sum. */
  datatype Parsed = Parsed(value: nat, next: nat, versions: nat)

  /** Parsed sub-packets: their values in order, the position after them and the version sum. */
  datatype Subs = Subs(values: seq<nat>, next: nat, versions: nat)

  /** How far a position is from the end, as a termination measure. */
  function Remaining(bits: seq<bool>, pos: nat): nat
  {
    if pos < |bits| then |bits| - pos else 0
  }

  /** The groups of a literal from pos on: each adds four bits to the value; a 0 lead bit ends it. */
  function Literal(bits: seq<bool>, pos: nat, value: nat, versions: nat): (r: Result<Parsed>)
    ensures r.Ok? ==> r.value.next > pos && r.value.versions == versions
    decreases Remaining(bits, pos)
  {
    if pos + 1 >= |bits| then Err(ValueError)
    else
      var v := value * 16 + BitsValue(Slice(bits, pos + 1, pos + 5));
      if !bits[pos] then Ok(Parsed(v, pos + 5, versions))
      else Literal(bits, pos + 5, v, versions)
  }

  function Product(s: seq<nat>): nat
  {
    if s == [] then 1 else Product(s[..|s| - 1]) * s[|s| - 1]
  }

  function SumOf(s: seq<nat>): nat
  {
    if s == [] then 0 else SumOf(s[..|s| - 1]) + s[|s| - 1]
  }

  function MinOf(s: seq<nat>): (r: nat)
    requires s != []
    ensures r in s && forall x :: x in s ==> r <= x
  {
    if |s| == 1 then s[0] else var m := MinOf(s[..|s| - 1]); assert s[..|s| - 1] + [s[|s| - 1]] == s; if s[|s| - 1] < m then s[|s| - 1] else m
  }

  function MaxOf(s: seq<nat>): (r: nat)
    requires s != []
    ensures r in s && forall x :: x in s ==> x <= r
  {
    if |s| == 1 then s[0] else var m := MaxOf(s[..|s| - 1]); assert s[..|s| - 1] + [s[|s| - 1]] == s; if s[|s| - 1] > m then s[|s| - 1] else m
  }

  /** The operator of a packet type applied to the values of its sub-packets. */
  function Apply(kind: nat, values: seq<nat>): Result<nat>
  {
    if kind == 0 then Ok(SumOf(values))
    else if kind == 1 then Ok(Product(values))
    else if kind == 2 then (if values == [] then Err(ValueError) else Ok(MinOf(values)))
    else if kind == 3 then (if values == [] then Err(ValueError) else Ok(MaxOf(values)))
    else if kind == 5 || kind == 6 || kind == 7 then
      if |values| < 2 then Err(IndexError)
      else if kind == 5 then Ok(if values[0] > values[1] then 1 else 0)
      else if kind == 6 then Ok(if values[0] < values[1] then 1 else 0)
      else Ok(if values[0] == values[1] then 1 else 0)
    else Err(AssertionError)
  }

  /**
   * `parse_bits_transmission(bits, pos)` with the version sum so far:
   * the packet's value, the position after it and the new version sum.
   */
  function Parse(bits: seq<bool>, pos: nat, versions: nat): (r: Result<Parsed>)
    ensures r.Ok? ==> pos < |bits| && r.value.next > pos
    decreases Remaining(bits, pos), 1, 0
  {
    if pos >= |bits| then Err(ValueError)
    else
      var sum := versions + BitsValue(Slice(bits, pos, pos + 3));
      if pos + 3 >= |bits| then Err(ValueError)
      else
        var kind := BitsValue(Slice(bits, pos + 3, pos + 6));
        if kind == 4 then Literal(bits, pos + 6, 0, sum)
        else Operator(bits, pos, kind, sum)
  }

  /** The operator branch: the length type bit, the sub-packets it frames, then the operator. */
  function Operator(bits: seq<bool>, pos: nat, kind: nat, versions: nat): (r: Result<Parsed>)
    ensures r.Ok? ==> r.value.next > pos
    decreases Remaining(bits, pos), 0, 0
  {
    if pos + 6 >= |bits| then Err(IndexError)
    else if pos + 7 >= |bits| then Err(ValueError)
    else
      var subs :=
        if !bits[pos + 6] then
          ByLength(bits, pos + 22, BitsValue(Slice(bits, pos + 7, pos + 22)), pos + 22, versions, [])
        else
          ByCount(bits, BitsValue(Slice(bits, pos + 7, pos + 18)), pos + 18, versions, []);
      if subs.Err? then Err(subs.error)
      else
        var value := Apply(kind, subs.value.values);
        if value.Err? then Err(value.error)
        else Ok(Parsed(value.value, subs.value.next, subs.value.versions))
  }

  /** Length type 0: sub-packets from pos on until exactly `length` bits after `start` are used. */
  function ByLength(bits: seq<bool>, start: nat, length: nat, pos: nat, versions: nat, values: seq<nat>): (r: Result<Subs>)
    requires start <= pos
    ensures r.Ok? ==> r.value.next > pos && r.value.next - start == length
    decreases Remaining(bits, pos), 2, 0
  {
    var sub := Parse(bits, pos, versions);
    if sub.Err? then Err(sub.error)
    else if sub.value.next - start == length then Ok(Subs(values + [sub.value.value], sub.value.next, sub.value.versions))
    else ByLength(bits, start, length, sub.value.next, sub.value.versions, values + [sub.value.value])
  }

  /** Length type 1: `count` more sub-packets from pos on. */
  function ByCount(bits: seq<bool>, count: nat, pos: nat, versions: nat, values: seq<nat>): (r: Result<Subs>)
    ensures r.Ok? ==> r.value.next >= pos && |r.value.values| == |values| + count
    decreases Remaining(bits, pos), 2, count
  {
    if count == 0 then Ok(Subs(values, pos, versions))
    else
      var sub := Parse(bits, pos, versions);
      if sub.Err? then Err(sub.error)
      else ByCount(bits, count - 1, sub.value.next, sub.value.versions, values + [sub.value.value])
  }

  // ---------------------------------------------------------------------------
  // The parser as the source runs it: a recursive procedure with loops
  // ---------------------------------------------------------------------------

  /**
   * `parse_bits_transmission(bits, pos)`; the global version sum is passed in as
   * `versions` and handed back in the result.
   */
  method ParseBitsTransmission(bits: seq<bool>, pos: nat, versions: nat) returns (r: Result<Parsed>)
    ensures r == Parse(bits, pos, versions)
    decreases Remaining(bits, pos), 1
  {
    if pos >= |bits| {
      return Err(ValueError);
    }
    var sum := versions + BitsValue(Slice(bits, pos, pos + 3));
    if pos + 3 >= |bits| {
      return Err(ValueError);
    }
    var kind := BitsValue(Slice(bits, pos + 3, pos + 6));
    if kind == 4 {
      r := ReadLiteral(bits, pos + 6, sum);
      return;
    }
    if pos + 6 >= |bits| {
      return Err(IndexError);
    }
    if pos + 7 >= |bits| {
      return Err(ValueError);
    }
    var subs;
    if !bits[pos + 6] {
      subs := ReadByLength(bits, pos + 22, BitsValue(Slice(bits, pos + 7, pos + 22)), sum);
    } else {
      subs := ReadByCount(bits, BitsValue(Slice(bits, pos + 7, pos + 18)), pos + 18, sum);
    }
    if subs.Err? {
      return Err(subs.error);
    }
    var value := ApplyOperator(kind, subs.value.values);
    if value.Err? {
      return Err(value.error);
    }
    r := Ok(Parsed(value.value, subs.value.next, subs.value.versions));
  }

  /** The `while True` loop over the 5-bit groups of a literal. */
  method ReadLiteral(bits: seq<bool>, pos: nat, versions: nat) returns (r: Result<Parsed>)
    ensures r == Literal(bits, pos, 0, versions)
  {
    var value: nat := 0;
    var at: nat := pos;
    while true
      invariant Literal(bits, at, value, versions) == Literal(bits, pos, 0, versions)
      decreases Remaining(bits, at)
    {
      if at + 1 >= |bits| {
        return Err(ValueError);
      }
      value := value * 16 + BitsValue(Slice(bits, at + 1, at + 5));
      at := at + 5;
      if !bits[at - 5] {
        return Ok(Parsed(value, at, versions));
      }
    }
  }

  /** Length type 0: parse sub-packets until they have used exactly `length` bits. */
  method ReadByLength(bits: seq<bool>, start: nat, length: nat, versions: nat) returns (r: Result<Subs>)
    ensures r == ByLength(bits, start, length, start, versions, [])
    decreases Remaining(bits, start), 2
  {
    var values: seq<nat> := [];
    var at := start;
    var sum := versions;
    while true
      invariant start <= at
      invariant ByLength(bits, start, length, at, sum, values) == ByLength(bits, start, length, start, versions, [])
      decreases Remaining(bits, at)
    {
      var sub := ParseBitsTransmission(bits, at, sum);
      if sub.Err? {
        return Err(sub.error);
      }
      values := values + [sub.value.value];
      at, sum := sub.value.next, sub.value.versions;
      if at - start == length {
        return Ok(Subs(values, at, sum));
      }
    }
  }

  /** Length type 1: `for _ in range(count)` sub-packets. */
  method ReadByCount(bits: seq<bool>, count: nat, pos: nat, versions: nat) returns (r: Result<Subs>)
    ensures r == ByCount(bits, count, pos, versions, [])
    decreases Remaining(bits, pos), 2
  {
    var values: seq<nat> := [];
    var at := pos;
    var sum := versions;
    for i := 0 to count
      invariant pos <= at
      invariant ByCount(bits, count - i, at, sum, values) == ByCount(bits, count, pos, versions, [])
    {
      var sub := ParseBitsTransmission(bits, at, sum);
      if sub.Err? {
        return Err(sub.error);
      }
      values := values + [sub.value.value];
      at, sum := sub.value.next, sub.value.versions;
    }
    r := Ok(Subs(values, at, sum));
  }

  /** The operator, with the product computed by the source's loop. */
  method ApplyOperator(kind: nat, values: seq<nat>) returns (r: Result<nat>)
    ensures r == Apply(kind, values)
  {
    if kind == 1 {
      var ans := 1;
      for i := 0 to |values|
        invariant ans == Product(values[..i])
      {
        assert values[..i + 1][..i] == values[..i];
        ans := ans * values[i];
      }
      assert values[..|values|] == values;
      r := Ok(ans);
    } else {
      r := Apply(kind, values);
    }
  }

  // ---------------------------------------------------------------------------
  // Packets and their encoding
  // ---------------------------------------------------------------------------

  /** A packet as the format describes it; a literal keeps its 4-bit groups. */
  datatype Packet =
    | LiteralPacket(version: nat, groups: seq<nat>)
    | OperatorPacket(version: nat, kind: nat, byCount: bool, subs: seq<Packet>)

  /** The 5-bit groups of a literal: a lead bit that is 1 on all groups but the last, then 4 bits. */
  function Groups(groups: seq<nat>): (r: seq<bool>)
    ensures |r| == 5 * |groups|
  {
    if groups == [] then [] else [|groups| > 1] + Bin(groups[0], 4) + Groups(groups[1..])
  }

  function Encode(p: Packet): (r: seq<bool>)
    ensures |r| >= 6
  {
    match p
    case LiteralPacket(version, groups) => Bin(version, 3) + Bin(4, 3) + Groups(groups)
    case OperatorPacket(version, kind, byCount, subs) =>
      var body := EncodeAll(subs);
      Bin(version, 3) + Bin(kind, 3) + (if byCount then [true] + Bin(|subs|, 11) else [false] + Bin(|body|, 15)) + body
  }

  function EncodeAll(ps: seq<Packet>): seq<bool>
  {
    if ps == [] then [] else Encode(ps[0]) + EncodeAll(ps[1..])
  }

  /** The value of a literal: its groups read as hexadecimal digits after `value`. */
  function GroupsValue(groups: seq<nat>, value: nat): nat
  {
    if groups == [] then value else GroupsValue(groups[1..], value * 16 + groups[0])
  }

  /** The value of a packet: a literal's number, or its operator applied to the sub-packets' values. */
  function Value(p: Packet): nat
  {
    match p
    case LiteralPacket(_, groups) => GroupsValue(groups, 0)
    case OperatorPacket(_, kind, _, subs) =>
      var r := Apply(kind, Values(subs));
      if r.Ok? then r.value else 0
  }

  function Values(ps: seq<Packet>): (r: seq<nat>)
    ensures |r| == |ps|
  {
    if ps == [] then [] else [Value(ps[0])] + Values(ps[1..])
  }

  /** The versions of a packet and of all packets nested in it, added up. */
  function VersionSum(p: Packet): nat
  {
    match p
    case LiteralPacket(version, _) => version
    case OperatorPacket(version, _, _, subs) => version + VersionSums(subs)
  }

  function VersionSums(ps: seq<Packet>): nat
  {
    if ps == [] then 0 else VersionSum(ps[0]) + VersionSums(ps[1..])
  }

  /**
   * A packet the format can carry and whose operator has enough operands:
   * 3-bit version and type, literal groups of 4 bits, a count below 2^11 or
   * a non-empty body shorter than 2^15 bits.
   */
  predicate WellFormed(p: Packet)
  {
    match p
    case LiteralPacket(version, groups) =>
      version < 8 && groups != [] && forall i :: 0 <= i < |groups| ==> groups[i] < 16
    case OperatorPacket(version, kind, byCount, subs) =>
      && version < 8 && kind < 8 && kind != 4
      && AllWellFormed(subs)
      && Apply(kind, Values(subs)).Ok?
      && (if byCount then |subs| < 2048 else subs != [] && |EncodeAll(subs)| < 32768)
  }

  predicate AllWellFormed(ps: seq<Packet>)
  {
    ps == [] || (WellFormed(ps[0]) && AllWellFormed(ps[1..]))
  }

  // ---------------------------------------------------------------------------
  // Parsing an encoded packet gives back its value, length and versions
  // ---------------------------------------------------------------------------

  lemma SplitAt(bits: seq<bool>, pos: nat, a: seq<bool>, b: seq<bool>)
    requires pos + |a| + |b| <= |bits| && bits[pos..pos + |a| + |b|] == a + b
    ensures bits[pos..pos + |a|] == a && bits[pos + |a|..pos + |a| + |b|] == b
  {
    assert bits[pos..pos + |a|] == bits[pos..pos + |a| + |b|][..|a|];
    assert bits[pos + |a|..pos + |a| + |b|] == bits[pos..pos + |a| + |b|][|a|..];
  }

  /** A w-bit field written at pos reads back as its number, and what follows starts w bits later. */
  lemma Field(bits: seq<bool>, pos: nat, next: nat, end: nat, n: nat, w: nat, rest: seq<bool>)
    requires 0 < w && n < Pow2(w) && next == pos + w && end == next + |rest|
    requires end <= |bits| && bits[pos..end] == Bin(n, w) + rest
    ensures BitsValue(Slice(bits, pos, next)) == n
    ensures bits[next..end] == rest
  {
    SplitAt(bits, pos, Bin(n, w), rest);
    BinValue(n, w);
  }

  /** A single bit written at pos reads back, and what follows starts one bit later. */
  lemma Flag(bits: seq<bool>, pos: nat, next: nat, end: nat, b: bool, rest: seq<bool>)
    requires next == pos + 1 && end == next + |rest|
    requires end <= |bits| && bits[pos..end] == [b] + rest
    ensures bits[pos] == b
    ensures bits[next..end] == rest
  {
    SplitAt(bits, pos, [b], rest);
    assert bits[pos] == bits[pos..next][0];
  }

  /** The groups of a literal parse back to their hexadecimal value, ending right after the last group. */
  lemma {:induction false} LiteralEncode(bits: seq<bool>, pos: nat, groups: seq<nat>, value: nat, versions: nat,
                                         result: nat, end: nat)
    requires groups != [] && forall i :: 0 <= i < |groups| ==> groups[i] < 16
    requires end == pos + 5 * |groups| && end <= |bits| && bits[pos..end] == Groups(groups)
    requires result == GroupsValue(groups, value)
    ensures Literal(bits, pos, value, versions) == Ok(Parsed(result, end, versions))
    decreases |groups|
  {
    GroupBits(bits, pos, groups, end);
    if |groups| > 1 {
      LiteralEncode(bits, pos + 5, groups[1..], value * 16 + groups[0], versions, result, end);
      LiteralMore(bits, pos, value, versions, groups[0], result, end);
    } else {
      LiteralLast(bits, pos, value, versions, groups[0], result, end);
    }
  }

  /** The first group written at pos: its lead bit, its four value bits, then the other groups. */
  lemma GroupBits(bits: seq<bool>, pos: nat, groups: seq<nat>, end: nat)
    requires groups != [] && groups[0] < 16
    requires end == pos + 5 * |groups| && end <= |bits| && bits[pos..end] == Groups(groups)
    ensures bits[pos] == (|groups| > 1) && BitsValue(Slice(bits, pos + 1, pos + 5)) == groups[0]
    ensures bits[pos + 5..end] == Groups(groups[1..])
  {
    var rest := Groups(groups[1..]);
    assert Groups(groups) == [|groups| > 1] + (Bin(groups[0], 4) + rest);
    Flag(bits, pos, pos + 1, end, |groups| > 1, Bin(groups[0], 4) + rest);
    Field(bits, pos + 1, pos + 5, end, groups[0], 4, rest);
  }

  /** A continued group read at pos hands the accumulated value on to the next group. */
  lemma LiteralMore(bits: seq<bool>, pos: nat, value: nat, versions: nat, group: nat, result: nat, end: nat)
    requires pos + 1 < |bits| && bits[pos] && BitsValue(Slice(bits, pos + 1, pos + 5)) == group
    requires Literal(bits, pos + 5, value * 16 + group, versions) == Ok(Parsed(result, end, versions))
    ensures Literal(bits, pos, value, versions) == Ok(Parsed(result, end, versions))
  {
  }

  /** The final group read at pos ends the literal right after it. */
  lemma LiteralLast(bits: seq<bool>, pos: nat, value: nat, versions: nat, group: nat, result: nat, end: nat)
    requires pos + 1 < |bits| && !bits[pos] && BitsValue(Slice(bits, pos + 1, pos + 5)) == group
    requires result == value * 16 + group && end == pos + 5
    ensures Literal(bits, pos, value, versions) == Ok(Parsed(result, end, versions))
  {
  }


  lemma LiteralLayout(version: nat, groups: seq<nat>)
    ensures Encode(LiteralPacket(version, groups)) == Bin(version, 3) + (Bin(4, 3) + Groups(groups))
  {
  }

  lemma OperatorLayout(version: nat, kind: nat, byCount: bool, subs: seq<Packet>)
    ensures var body := EncodeAll(subs);
            Encode(OperatorPacket(version, kind, byCount, subs))
            == Bin(version, 3) + (Bin(kind, 3) + ([byCount] + (Bin(if byCount then |subs| else |body|, if byCount then 11 else 15) + body)))
  {
  }

  /**
   * A well-formed packet written at pos parses back to its value, ends where its encoding
   * ends, and adds its versions. The expected results are parameters so that the proof's
   * goals never unfold the encoder and the parser together.
   */
  lemma {:induction false} ParseEncodeAt(bits: seq<bool>, pos: nat, versions: nat, p: Packet,
                                         value: nat, end: nat, sum: nat)
    requires WellFormed(p)
    requires end == pos + |Encode(p)| && end <= |bits| && bits[pos..end] == Encode(p)
    requires value == Value(p) && sum == versions + VersionSum(p)
    ensures Parse(bits, pos, versions) == Ok(Parsed(value, end, sum))
    decreases p, 2
  {
    if p.LiteralPacket? {
      ParseLiteralAt(bits, pos, versions, p, value, end, sum);
    } else {
      ParseOperatorAt(bits, pos, versions, p, value, end, sum);
    }
  }

  lemma {:induction false} ParseLiteralAt(bits: seq<bool>, pos: nat, versions: nat, p: Packet,
                                          value: nat, end: nat, sum: nat)
    requires p.LiteralPacket? && WellFormed(p)
    requires end == pos + |Encode(p)| && end <= |bits| && bits[pos..end] == Encode(p)
    requires value == Value(p) && sum == versions + VersionSum(p)
    ensures Parse(bits, pos, versions) == Ok(Parsed(value, end, sum))
  {
    var body := Groups(p.groups);
    LiteralLayout(p.version, p.groups);
    Field(bits, pos, pos + 3, end, p.version, 3, Bin(4, 3) + body);
    Field(bits, pos + 3, pos + 6, end, 4, 3, body);
    LiteralEncode(bits, pos + 6, p.groups, 0, versions + p.version, value, end);
    LiteralHeader(bits, pos, versions, p.version, value, end, sum);
  }

  /** A literal's header read at pos hands the rest to the group loop. */
  lemma LiteralHeader(bits: seq<bool>, pos: nat, versions: nat, version: nat, value: nat, end: nat, sum: nat)
    requires pos + 6 < |bits|
    requires BitsValue(Slice(bits, pos, pos + 3)) == version && BitsValue(Slice(bits, pos + 3, pos + 6)) == 4
    requires Literal(bits, pos + 6, 0, versions + version) == Ok(Parsed(value, end, sum))
    ensures Parse(bits, pos, versions) == Ok(Parsed(value, end, sum))
  {
  }

  /** An operator's header read at pos hands the rest to the operator branch. */
  lemma OperatorHeader(bits: seq<bool>, pos: nat, versions: nat, version: nat, kind: nat, value: nat, end: nat, sum: nat)
    requires pos + 3 < |bits| && kind != 4
    requires BitsValue(Slice(bits, pos, pos + 3)) == version && BitsValue(Slice(bits, pos + 3, pos + 6)) == kind
    requires Operator(bits, pos, kind, versions + version) == Ok(Parsed(value, end, sum))
    ensures Parse(bits, pos, versions) == Ok(Parsed(value, end, sum))
  {
  }

  /** Length type 1: the count read after the flag bit drives the counted sub-packet loop. */
  lemma CountOperator(bits: seq<bool>, pos: nat, kind: nat, versions: nat, n: nat,
                      vs: seq<nat>, value: nat, end: nat, sum: nat)
    requires pos + 7 < |bits| && bits[pos + 6] && BitsValue(Slice(bits, pos + 7, pos + 18)) == n
    requires ByCount(bits, n, pos + 18, versions, []) == Ok(Subs(vs, end, sum))
    requires Apply(kind, vs) == Ok(value)
    ensures Operator(bits, pos, kind, versions) == Ok(Parsed(value, end, sum))
  {
  }

  /** Length type 0: the length read after the flag bit drives the sub-packet loop over a length. */
  lemma LengthOperator(bits: seq<bool>, pos: nat, kind: nat, versions: nat, n: nat,
                       vs: seq<nat>, value: nat, end: nat, sum: nat)
    requires pos + 7 < |bits| && !bits[pos + 6] && BitsValue(Slice(bits, pos + 7, pos + 22)) == n
    requires ByLength(bits, pos + 22, n, pos + 22, versions, []) == Ok(Subs(vs, end, sum))
    requires Apply(kind, vs) == Ok(value)
    ensures Operator(bits, pos, kind, versions) == Ok(Parsed(value, end, sum))
  {
  }

  /** Length type 1 after a header already read: the counted loop over the sub-packets' encodings. */
  lemma CountParse(bits: seq<bool>, pos: nat, versions: nat, version: nat, kind: nat, subs: seq<Packet>,
                   value: nat, end: nat, sum: nat)
    requires pos + 7 < |bits| && kind != 4 && bits[pos + 6]
    requires BitsValue(Slice(bits, pos, pos + 3)) == version && BitsValue(Slice(bits, pos + 3, pos + 6)) == kind
    requires BitsValue(Slice(bits, pos + 7, pos + 18)) == |subs|
    requires AllWellFormed(subs) && Apply(kind, Values(subs)) == Ok(value)
    requires end == pos + 18 + |EncodeAll(subs)| && end <= |bits| && bits[pos + 18..end] == EncodeAll(subs)
    requires sum == versions + version + VersionSums(subs)
    ensures Parse(bits, pos, versions) == Ok(Parsed(value, end, sum))
    decreases subs, 2
  {
    ByCountEncode(bits, pos + 18, versions + version, [], subs, end, Values(subs), sum);
    CountOperator(bits, pos, kind, versions + version, |subs|, Values(subs), value, end, sum);
    OperatorHeader(bits, pos, versions, version, kind, value, end, sum);
  }

  /** Length type 0 after a header already read: the loop over the sub-packets' encodings up to their length. */
  lemma LengthParse(bits: seq<bool>, pos: nat, versions: nat, version: nat, kind: nat, subs: seq<Packet>,
                    value: nat, end: nat, sum: nat)
    requires pos + 7 < |bits| && kind != 4 && !bits[pos + 6]
    requires BitsValue(Slice(bits, pos, pos + 3)) == version && BitsValue(Slice(bits, pos + 3, pos + 6)) == kind
    requires subs != [] && BitsValue(Slice(bits, pos + 7, pos + 22)) == |EncodeAll(subs)|
    requires AllWellFormed(subs) && Apply(kind, Values(subs)) == Ok(value)
    requires end == pos + 22 + |EncodeAll(subs)| && end <= |bits| && bits[pos + 22..end] == EncodeAll(subs)
    requires sum == versions + version + VersionSums(subs)
    ensures Parse(bits, pos, versions) == Ok(Parsed(value, end, sum))
    decreases subs, 2
  {
    ByLengthEncode(bits, pos + 22, |EncodeAll(subs)|, pos + 22, versions + version, [], subs, end, Values(subs), sum);
    LengthOperator(bits, pos, kind, versions + version, |EncodeAll(subs)|, Values(subs), value, end, sum);
    OperatorHeader(bits, pos, versions, version, kind, value, end, sum);
  }

  lemma {:induction false} ParseOperatorAt(bits: seq<bool>, pos: nat, versions: nat, p: Packet,
                                           value: nat, end: nat, sum: nat)
    requires p.OperatorPacket? && WellFormed(p)
    requires end == pos + |Encode(p)| && end <= |bits| && bits[pos..end] == Encode(p)
    requires value == Value(p) && sum == versions + VersionSum(p)
    ensures Parse(bits, pos, versions) == Ok(Parsed(value, end, sum))
    decreases p, 1
  {
    OperatorLayout(p.version, p.kind, p.byCount, p.subs);
    ParseOperatorFields(bits, pos, versions, p.version, p.kind, p.byCount, p.subs, value, end, sum);
  }

  lemma FieldWidths()
    ensures Pow2(3) == 8 && Pow2(11) == 2048 && Pow2(15) == 32768
  {
  }

  /** The header fields of an operator packet written at pos read back, and its body follows them at at. */
  lemma OperatorBits(bits: seq<bool>, pos: nat, version: nat, kind: nat, byCount: bool, n: nat, w: nat,
                     at: nat, end: nat, body: seq<bool>)
    requires version < 8 && kind < 8 && 0 < w && n < Pow2(w) && at == pos + 7 + w && end == at + |body|
    requires end <= |bits| && bits[pos..end] == Bin(version, 3) + (Bin(kind, 3) + ([byCount] + (Bin(n, w) + body)))
    ensures BitsValue(Slice(bits, pos, pos + 3)) == version && BitsValue(Slice(bits, pos + 3, pos + 6)) == kind
    ensures bits[pos + 6] == byCount && BitsValue(Slice(bits, pos + 7, at)) == n
    ensures bits[at..end] == body
  {
    Field(bits, pos, pos + 3, end, version, 3, Bin(kind, 3) + ([byCount] + (Bin(n, w) + body)));
    KindBits(bits, pos, kind, byCount, n, w, at, end, body);
  }

  lemma KindBits(bits: seq<bool>, pos: nat, kind: nat, byCount: bool, n: nat, w: nat, at: nat, end: nat,
                 body: seq<bool>)
    requires kind < 8 && 0 < w && n < Pow2(w) && at == pos + 7 + w && end == at + |body|
    requires end <= |bits| && bits[pos + 3..end] == Bin(kind, 3) + ([byCount] + (Bin(n, w) + body))
    ensures BitsValue(Slice(bits, pos + 3, pos + 6)) == kind
    ensures bits[pos + 6] == byCount && BitsValue(Slice(bits, pos + 7, at)) == n
    ensures bits[at..end] == body
  {
    Field(bits, pos + 3, pos + 6, end, kind, 3, [byCount] + (Bin(n, w) + body));
    FlagBits(bits, pos, byCount, n, w, at, end, body);
  }

  lemma FlagBits(bits: seq<bool>, pos: nat, byCount: bool, n: nat, w: nat, at: nat, end: nat, body: seq<bool>)
    requires 0 < w && n < Pow2(w) && at == pos + 7 + w && end == at + |body|
    requires end <= |bits| && bits[pos + 6..end] == [byCount] + (Bin(n, w) + body)
    ensures bits[pos + 6] == byCount && BitsValue(Slice(bits, pos + 7, at)) == n
    ensures bits[at..end] == body
  {
    Flag(bits, pos + 6, pos + 7, end, byCount, Bin(n, w) + body);
    Field(bits, pos + 7, at, end, n, w, body);
  }

  /** The operator round trip over the packet's fields. */
  lemma {:induction false} ParseOperatorFields(bits: seq<bool>, pos: nat, versions: nat,
                                               version: nat, kind: nat, byCount: bool, subs: seq<Packet>,
                                               value: nat, end: nat, sum: nat)
    requires version < 8 && kind < 8 && kind != 4 && AllWellFormed(subs) && Apply(kind, Values(subs)) == Ok(value)
    requires if byCount then |subs| < 2048 else subs != [] && |EncodeAll(subs)| < 32768
    requires var body := EncodeAll(subs);
             var n, w := if byCount then |subs| else |body|, if byCount then 11 else 15;
             && end == pos + 7 + w + |body| && end <= |bits|
             && bits[pos..end] == Bin(version, 3) + (Bin(kind, 3) + ([byCount] + (Bin(n, w) + body)))
    requires sum == versions + version + VersionSums(subs)
    ensures Parse(bits, pos, versions) == Ok(Parsed(value, end, sum))
    decreases subs, 4
  {
    if byCount {
      ParseCountFields(bits, pos, versions, version, kind, subs, value, end, sum);
    } else {
      ParseLengthFields(bits, pos, versions, version, kind, subs, value, end, sum);
    }
  }

  lemma {:induction false} ParseCountFields(bits: seq<bool>, pos: nat, versions: nat,
                                            version: nat, kind: nat, subs: seq<Packet>,
                                            value: nat, end: nat, sum: nat)
    requires version < 8 && kind < 8 && kind != 4 && AllWellFormed(subs) && Apply(kind, Values(subs)) == Ok(value)
    requires |subs| < 2048 && end == pos + 18 + |EncodeAll(subs)| && end <= |bits|
    requires bits[pos..end] == Bin(version, 3) + (Bin(kind, 3) + ([true] + (Bin(|subs|, 11) + EncodeAll(subs))))
    requires sum == versions + version + VersionSums(subs)
    ensures Parse(bits, pos, versions) == Ok(Parsed(value, end, sum))
    decreases subs, 3
  {
    FieldWidths();
    OperatorBits(bits, pos, version, kind, true, |subs|, 11, pos + 18, end, EncodeAll(subs));
    CountParse(bits, pos, versions, version, kind, subs, value, end, sum);
  }

  lemma {:induction false} ParseLengthFields(bits: seq<bool>, pos: nat, versions: nat,
                                             version: nat, kind: nat, subs: seq<Packet>,
                                             value: nat, end: nat, sum: nat)
    requires version < 8 && kind < 8 && kind != 4 && AllWellFormed(subs) && Apply(kind, Values(subs)) == Ok(value)
    requires subs != [] && |EncodeAll(subs)| < 32768 && end == pos + 22 + |EncodeAll(subs)| && end <= |bits|
    requires bits[pos..end] == Bin(version, 3) + (Bin(kind, 3) + ([false] + (Bin(|EncodeAll(subs)|, 15) + EncodeAll(subs))))
    requires sum == versions + version + VersionSums(subs)
    ensures Parse(bits, pos, versions) == Ok(Parsed(value, end, sum))
    decreases subs, 3
  {
    var body := EncodeAll(subs);
    FieldWidths();
    OperatorBits(bits, pos, version, kind, false, |body|, 15, pos + 22, end, body);
    LengthParse(bits, pos, versions, version, kind, subs, value, end, sum);
  }

  /** Length type 0 over the encodings of ps: the loop stops exactly after the last one. */
  lemma {:induction false} ByLengthEncode(bits: seq<bool>, start: nat, length: nat, pos: nat, versions: nat,
                                          values: seq<nat>, ps: seq<Packet>, end: nat, vs: seq<nat>, sum: nat)
    requires ps != [] && AllWellFormed(ps) && start <= pos && length + start == end
    requires end == pos + |EncodeAll(ps)| && end <= |bits| && bits[pos..end] == EncodeAll(ps)
    requires vs == values + Values(ps) && sum == versions + VersionSums(ps)
    ensures ByLength(bits, start, length, pos, versions, values) == Ok(Subs(vs, end, sum))
    decreases ps, 1
  {
    var q, more := ps[0], ps[1..];
    assert EncodeAll(ps) == Encode(q) + EncodeAll(more);
    SplitAt(bits, pos, Encode(q), EncodeAll(more));
    ByLengthStep(bits, start, length, pos, versions, values, ps,
                 Value(q), pos + |Encode(q)|, versions + VersionSum(q), end, vs, sum);
  }

  /** The first sub-packet of a length-type-0 body, then the rest of it. */
  lemma {:induction false} ByLengthStep(bits: seq<bool>, start: nat, length: nat, pos: nat, versions: nat,
                                        values: seq<nat>, ps: seq<Packet>,
                                        v: nat, mid: nat, vq: nat, end: nat, vs: seq<nat>, sum: nat)
    requires ps != [] && WellFormed(ps[0]) && AllWellFormed(ps[1..]) && start <= pos && length + start == end
    requires mid == pos + |Encode(ps[0])| && mid <= |bits| && bits[pos..mid] == Encode(ps[0])
    requires end == mid + |EncodeAll(ps[1..])| && end <= |bits| && bits[mid..end] == EncodeAll(ps[1..])
    requires v == Value(ps[0]) && vq == versions + VersionSum(ps[0])
    requires vs == values + [v] + Values(ps[1..]) && sum == vq + VersionSums(ps[1..])
    ensures ByLength(bits, start, length, pos, versions, values) == Ok(Subs(vs, end, sum))
    decreases ps, 0
  {
    ParseEncodeAt(bits, pos, versions, ps[0], v, mid, vq);
    if ps[1..] == [] {
      assert vs == values + [v] && end == mid && sum == vq;
    } else {
      assert |EncodeAll(ps[1..])| >= 6;
      ByLengthEncode(bits, start, length, mid, vq, values + [v], ps[1..], end, vs, sum);
    }
  }

  /** Length type 1 with the count of ps over their encodings. */
  lemma {:induction false} ByCountEncode(bits: seq<bool>, pos: nat, versions: nat, values: seq<nat>, ps: seq<Packet>,
                                         end: nat, vs: seq<nat>, sum: nat)
    requires AllWellFormed(ps)
    requires end == pos + |EncodeAll(ps)| && end <= |bits| && bits[pos..end] == EncodeAll(ps)
    requires vs == values + Values(ps) && sum == versions + VersionSums(ps)
    ensures ByCount(bits, |ps|, pos, versions, values) == Ok(Subs(vs, end, sum))
    decreases ps, 1
  {
    if ps == [] {
      assert vs == values && end == pos && sum == versions;
    } else {
      var q, more := ps[0], ps[1..];
      assert EncodeAll(ps) == Encode(q) + EncodeAll(more);
      SplitAt(bits, pos, Encode(q), EncodeAll(more));
      ByCountStep(bits, |ps|, pos, versions, values, ps,
                  Value(q), pos + |Encode(q)|, versions + VersionSum(q), end, vs, sum);
    }
  }

  /** The first of count sub-packets, then the other count - 1. */
  lemma {:induction false} ByCountStep(bits: seq<bool>, count: nat, pos: nat, versions: nat,
                                       values: seq<nat>, ps: seq<Packet>,
                                       v: nat, mid: nat, vq: nat, end: nat, vs: seq<nat>, sum: nat)
    requires ps != [] && count == |ps| && WellFormed(ps[0]) && AllWellFormed(ps[1..])
    requires mid == pos + |Encode(ps[0])| && mid <= |bits| && bits[pos..mid] == Encode(ps[0])
    requires end == mid + |EncodeAll(ps[1..])| && end <= |bits| && bits[mid..end] == EncodeAll(ps[1..])
    requires v == Value(ps[0]) && vq == versions + VersionSum(ps[0])
    requires vs == values + [v] + Values(ps[1..]) && sum == vq + VersionSums(ps[1..])
    ensures ByCount(bits, count, pos, versions, values) == Ok(Subs(vs, end, sum))
    decreases ps, 0
  {
    ParseEncodeAt(bits, pos, versions, ps[0], v, mid, vq);
    ByCountEncode(bits, mid, vq, values + [v], ps[1..], end, vs, sum);
  }

  // ---------------------------------------------------------------------------
  // The assert in the operator branch is never reached
  // ---------------------------------------------------------------------------

  /** A 3-bit type field read at pos is below 8, even when the end of the bits cuts it short. */
  lemma KindBound(bits: seq<bool>, lo: nat, hi: nat)
    requires lo < |bits| && lo < hi && hi - lo <= 3
    ensures BitsValue(Slice(bits, lo, hi)) < 8
  {
    var f := Slice(bits, lo, hi);
    BitsValueBound(f);
    FieldWidths();
    assert Pow2(1) == 2 && Pow2(2) == 4;
  }

  /** The group loop fails only by running out of bits, the ValueError of an empty slice. */
  lemma {:induction false} LiteralFailsOnlyAtEnd(bits: seq<bool>, pos: nat, value: nat, versions: nat)
    ensures Literal(bits, pos, value, versions).Err? ==> Literal(bits, pos, value, versions) == Err(ValueError)
    decreases Remaining(bits, pos)
  {
    if pos + 1 < |bits| && bits[pos] {
      LiteralFailsOnlyAtEnd(bits, pos + 5, value * 16 + BitsValue(Slice(bits, pos + 1, pos + 5)), versions);
    }
  }

  /** Every type the parser can read is one of the eight the operator chain handles or the literal type. */
  lemma {:induction false} ParseNeverAsserts(bits: seq<bool>, pos: nat, versions: nat)
    ensures Parse(bits, pos, versions) != Err(AssertionError)
    decreases Remaining(bits, pos), 1, 0
  {
    if pos < |bits| && pos + 3 < |bits| {
      var sum := versions + BitsValue(Slice(bits, pos, pos + 3));
      var kind := BitsValue(Slice(bits, pos + 3, pos + 6));
      KindBound(bits, pos + 3, pos + 6);
      if kind == 4 {
        LiteralFailsOnlyAtEnd(bits, pos + 6, 0, sum);
      } else {
        OperatorNeverAsserts(bits, pos, kind, sum);
      }
    }
  }

  lemma {:induction false} OperatorNeverAsserts(bits: seq<bool>, pos: nat, kind: nat, versions: nat)
    requires kind < 8 && kind != 4
    ensures Operator(bits, pos, kind, versions) != Err(AssertionError)
    decreases Remaining(bits, pos), 0, 0
  {
    if pos + 7 < |bits| {
      if !bits[pos + 6] {
        ByLengthNeverAsserts(bits, pos + 22, BitsValue(Slice(bits, pos + 7, pos + 22)), pos + 22, versions, []);
      } else {
        ByCountNeverAsserts(bits, BitsValue(Slice(bits, pos + 7, pos + 18)), pos + 18, versions, []);
      }
    }
  }

  lemma {:induction false} ByLengthNeverAsserts(bits: seq<bool>, start: nat, length: nat, pos: nat, versions: nat,
                                                values: seq<nat>)
    requires start <= pos
    ensures ByLength(bits, start, length, pos, versions, values) != Err(AssertionError)
    decreases Remaining(bits, pos), 2, 0
  {
    ParseNeverAsserts(bits, pos, versions);
    var sub := Parse(bits, pos, versions);
    if sub.Ok? && sub.value.next - start != length {
      ByLengthNeverAsserts(bits, start, length, sub.value.next, sub.value.versions, values + [sub.value.value]);
    }
  }

  lemma {:induction false} ByCountNeverAsserts(bits: seq<bool>, count: nat, pos: nat, versions: nat, values: seq<nat>)
    ensures ByCount(bits, count, pos, versions, values) != Err(AssertionError)
    decreases Remaining(bits, pos), 2, count
  {
    if count > 0 {
      ParseNeverAsserts(bits, pos, versions);
      var sub := Parse(bits, pos, versions);
      if sub.Ok? {
        ByCountNeverAsserts(bits, count - 1, sub.value.next, sub.value.versions, values + [sub.value.value]);
      }
    }
  }

  // ---------------------------------------------------------------------------
  // Reading the message: hexadecimal digits to bits
  // ---------------------------------------------------------------------------

  predicate IsHex(c: char)
  {
    '0' <= c <= '9' || 'a' <= c <= 'f' || 'A' <= c <= 'F'
  }

  predicate AllHex(hex: string)
  {
    forall i :: 0 <= i < |hex| ==> IsHex(hex[i])
  }

  function HexValue(c: char): (r: nat)
    requires IsHex(c)
    ensures r < 16
  {
    if '0' <= c <= '9' then c as nat - '0' as nat
    else if 'a' <= c <= 'f' then c as nat - 'a' as nat + 10
    else c as nat - 'A' as nat + 10
  }

  /** `int(hex, 16)`: the digits read left to right. */
  function HexNumber(hex: string): nat
    requires AllHex(hex)
  {
    if hex == [] then 0 else HexNumber(hex[..|hex| - 1]) * 16 + HexValue(hex[|hex| - 1])
  }

  /** Reference encoding of a message: four bits per hexadecimal digit, most significant first. */
  function HexBits(hex: string): (r: seq<bool>)
    requires AllHex(hex)
    ensures |r| == 4 * |hex|
  {
    if hex == [] then [] else HexBits(hex[..|hex| - 1]) + Bin(HexValue(hex[|hex| - 1]), 4)
  }

  /** `bin(n)[2:]`: the binary digits of n without leading zeros ("0" for zero). */
  function Binary(n: nat): (r: seq<bool>)
    ensures |r| >= 1
  {
    if n < 2 then [n == 1] else Binary(n / 2) + [n % 2 == 1]
  }

  function Zeros(k: nat): (r: seq<bool>)
    ensures |r| == k
  {
    if k == 0 then [] else Zeros(k - 1) + [false]
  }

  /** Zero in w bits is w zeros. */
  lemma {:induction false} BinZero(w: nat)
    ensures Bin(0, w) == Zeros(w)
  {
    if w > 0 {
      BinZero(w - 1);
    }
  }

  /** Padding `bin(n)[2:]` with zeros to w digits gives n in w bits, as long as n fits. */
  lemma {:induction false} BinaryPadded(n: nat, w: nat)
    requires 0 < w && n < Pow2(w)
    ensures |Binary(n)| <= w && Zeros(w - |Binary(n)|) + Binary(n) == Bin(n, w)
  {
    if n < 2 {
      BinZero(w - 1);
      assert Bin(n, w) == Bin(0, w - 1) + [n % 2 == 1];
    } else {
      assert Pow2(1) == 2;
      BinaryPadded(n / 2, w - 1);
      var pad := Zeros(w - |Binary(n)|);
      assert pad + Binary(n) == (pad + Binary(n / 2)) + [n % 2 == 1];
    }
  }

  /** Writing q, shifted left by m bits, plus d < 2^m in w + m bits: q's w bits, then d's m bits. */
  lemma {:induction false} BinSplit(q: nat, d: nat, w: nat, m: nat)
    requires d < Pow2(m)
    ensures Bin(q * Pow2(m) + d, w + m) == Bin(q, w) + Bin(d, m)
  {
    if m == 0 {
      assert q * Pow2(m) + d == q;
    } else {
      var half := Pow2(m - 1);
      var n := q * Pow2(m) + d;
      assert q * Pow2(m) == 2 * (q * half);
      assert n / 2 == q * half + d / 2 && n % 2 == d % 2;
      BinSplit(q, d / 2, w, m - 1);
      AppendAssoc(Bin(q, w), Bin(d / 2, m - 1), [d % 2 == 1]);
    }
  }

  lemma {:induction false} Pow2Split(a: nat, b: nat)
    ensures Pow2(a + b) == Pow2(a) * Pow2(b)
  {
    if b > 0 {
      Pow2Split(a, b - 1);
      assert Pow2(a + b) == 2 * Pow2(a + b - 1);
      assert Pow2(a) * Pow2(b) == Pow2(a) * (2 * Pow2(b - 1)) == 2 * (Pow2(a) * Pow2(b - 1));
    }
  }

  lemma AppendAssoc(a: seq<bool>, b: seq<bool>, c: seq<bool>)
    ensures (a + b) + c == a + (b + c)
  {
  }

  /** The number of a hexadecimal string, written in four bits per digit, is the digits' own nibbles. */
  lemma {:induction false} HexBitsNumber(hex: string)
    requires AllHex(hex)
    ensures HexNumber(hex) < Pow2(4 * |hex|)
    ensures Bin(HexNumber(hex), 4 * |hex|) == HexBits(hex)
  {
    if hex != [] {
      var init, d := hex[..|hex| - 1], HexValue(hex[|hex| - 1]);
      assert AllHex(init) by {
        forall i | 0 <= i < |init| ensures IsHex(init[i]) {
          assert init[i] == hex[i];
        }
      }
      HexBitsNumber(init);
      var v, w := HexNumber(init), 4 * |init|;
      assert HexNumber(hex) == v * 16 + d && 4 * |hex| == w + 4;
      assert HexBits(hex) == HexBits(init) + Bin(d, 4);
      HexDigitAppend(v, d, w);
      assert Bin(v * 16 + d, w + 4) == HexBits(init) + Bin(d, 4);
    }
  }

  /** A number below 2^w followed by one more hexadecimal digit d: below 2^(w + 4), and its w bits then d's four. */
  lemma HexDigitAppend(v: nat, d: nat, w: nat)
    requires v < Pow2(w) && d < 16
    ensures v * 16 + d < Pow2(w + 4)
    ensures Bin(v * 16 + d, w + 4) == Bin(v, w) + Bin(d, 4)
  {
    Pow2Split(w, 4);
    assert Pow2(4) == 16;
    assert v * 16 + d < (v + 1) * 16 <= Pow2(w) * 16;
    BinSplit(v, d, w, 4);
  }

  /** One more leading zero moves from the padding into the digits. */
  lemma {:induction false} ZerosShift(k: nat, digits: seq<bool>)
    requires k > 0
    ensures Zeros(k) + digits == Zeros(k - 1) + ([false] + digits)
  {
    AppendAssoc(Zeros(k - 1), [false], digits);
  }

  /**
   * read_message: the whitespace-stripped text as a hexadecimal number, its
   * binary digits, then zeros in front until there are four bits per
   * hexadecimal digit. An empty or non-hexadecimal text is the ValueError of
   * `int(hex, 16)`.
   */
  method ReadMessage(text: string) returns (r: Result<seq<bool>>)
    ensures r.Ok? <==> Text.Strip(text) != [] && AllHex(Text.Strip(text))
    ensures r.Err? ==> r.error == ValueError
    ensures r.Ok? ==> r.value == HexBits(Text.Strip(text))
  {
    var hex := Text.Strip(text);
    if hex == [] || !AllHex(hex) {
      return Err(ValueError);
    }
    var n := HexNumber(hex);
    var binary := Binary(n);
    var width := 4 * |hex|;
    HexBitsNumber(hex);
    BinaryPadded(n, width);
    while |binary| < width
      invariant |binary| <= width
      invariant Zeros(width - |binary|) + binary == HexBits(hex)
      decreases width - |binary|
    {
      ZerosShift(width - |binary|, binary);
      binary := [false] + binary;
    }
    return Ok(binary);
  }

  // ---------------------------------------------------------------------------
  // The documented examples
  // ---------------------------------------------------------------------------

  /** The three bits of a number below 8. */
  lemma Bin3(n: nat, b2: bool, b1: bool, b0: bool)
    requires n < 8 && b2 == (n >= 4) && b1 == (n % 4 >= 2) && b0 == (n % 2 == 1)
    ensures Bin(n, 3) == [b2, b1, b0]
  {
    assert Bin(n, 3) == Bin(n / 2, 2) + [n % 2 == 1];
    assert Bin(n / 2, 2) == Bin(n / 4, 1) + [(n / 2) % 2 == 1];
    assert Bin(n / 4, 1) == Bin(n / 8, 0) + [(n / 4) % 2 == 1];
  }

  /** The four bits of a number below 16. */
  lemma Bin4(n: nat, b3: bool, b2: bool, b1: bool, b0: bool)
    requires n < 16 && b3 == (n >= 8) && b2 == (n % 8 >= 4) && b1 == (n % 4 >= 2) && b0 == (n % 2 == 1)
    ensures Bin(n, 4) == [b3, b2, b1, b0]
  {
    var half := n / 2;
    assert half >= 4 <==> n >= 8;
    assert half % 4 >= 2 <==> n % 8 >= 4;
    assert half % 2 == 1 <==> n % 4 >= 2;
    Bin3(half, b3, b2, b1);
    assert Bin(n, 4) == Bin(half, 3) + [n % 2 == 1];
  }

  /** Three groups: the first two marked as continued, the last as final. */
  lemma GroupsThree(a: nat, b: nat, c: nat)
    ensures Groups([a, b, c]) == [true] + Bin(a, 4) + ([true] + Bin(b, 4) + ([false] + Bin(c, 4)))
  {
    assert [a, b, c][1..] == [b, c];
    GroupsTwo(b, c);
  }

  /** Two groups: the first marked as continued, the second as final. */
  lemma GroupsTwo(a: nat, b: nat)
    ensures Groups([a, b]) == [true] + Bin(a, 4) + ([false] + Bin(b, 4))
  {
    assert [a, b][1..] == [b];
    assert Groups([b]) == [false] + Bin(b, 4);
  }

  /** A literal of three groups, field by field. */
  lemma LiteralThree(version: nat, a: nat, b: nat, c: nat)
    ensures Encode(LiteralPacket(version, [a, b, c]))
         == Bin(version, 3) + (Bin(4, 3) + ([true] + Bin(a, 4) + ([true] + Bin(b, 4) + ([false] + Bin(c, 4)))))
  {
    LiteralLayout(version, [a, b, c]);
    GroupsThree(a, b, c);
  }

  /** A literal of two groups, field by field. */
  lemma LiteralTwo(version: nat, a: nat, b: nat)
    ensures Encode(LiteralPacket(version, [a, b]))
         == Bin(version, 3) + (Bin(4, 3) + ([true] + Bin(a, 4) + ([false] + Bin(b, 4))))
  {
    LiteralLayout(version, [a, b]);
    GroupsTwo(a, b);
  }

  /** The encoding of a version-6 literal with groups 7, 14, 5, field by field. */
  lemma Example2021Code()
    ensures Encode(LiteralPacket(6, [7, 14, 5]))
         == [true, true, false] + ([true, false, false]
            + ([true] + [false, true, true, true] + ([true] + [true, true, true, false] + ([false] + [false, true, false, true]))))
  {
    Bin3(6, true, true, false);
    Bin3(4, true, false, false);
    Bin4(7, false, true, true, true);
    Bin4(14, true, true, true, false);
    Bin4(5, false, true, false, true);
    LiteralThree(6, 7, 14, 5);
  }

  /** "110100101111111000101000": version 6, a literal 2021 in three groups, three padding bits. */
  lemma Example2021(bits: seq<bool>)
    requires bits == [true, true, false] + ([true, false, false]
            + ([true] + [false, true, true, true] + ([true] + [true, true, true, false] + ([false] + [false, true, false, true]))))
                     + [false, false, false]
    ensures Parse(bits, 0, 0) == Ok(Parsed(2021, 21, 6))
  {
    var p := LiteralPacket(6, [7, 14, 5]);
    Example2021Code();
    assert Value(p) == GroupsValue([7, 14, 5], 0) == 2021;
    ParseLiteralAt(bits, 0, 0, p, 2021, 21, 6);
  }

  /** The encoding of a version-6 literal with groups 7, 10, 5, field by field. */
  lemma Example1957Code()
    ensures Encode(LiteralPacket(6, [7, 10, 5]))
         == [true, true, false] + ([true, false, false]
            + ([true] + [false, true, true, true] + ([true] + [true, false, true, false] + ([false] + [false, true, false, true]))))
  {
    Bin3(6, true, true, false);
    Bin3(4, true, false, false);
    Bin4(7, false, true, true, true);
    Bin4(10, true, false, true, false);
    Bin4(5, false, true, false, true);
    LiteralThree(6, 7, 10, 5);
  }

  /** "110100101111101000101000": the middle group changed to 10 gives 1957. */
  lemma Example1957(bits: seq<bool>)
    requires bits == [true, true, false] + ([true, false, false]
            + ([true] + [false, true, true, true] + ([true] + [true, false, true, false] + ([false] + [false, true, false, true]))))
                     + [false, false, false]
    ensures Parse(bits, 0, 0) == Ok(Parsed(1957, 21, 6))
  {
    var p := LiteralPacket(6, [7, 10, 5]);
    Example1957Code();
    assert Value(p) == GroupsValue([7, 10, 5], 0) == 1957;
    ParseLiteralAt(bits, 0, 0, p, 1957, 21, 6);
  }

  /** The encoding of a version-6 literal with groups 6, 14, field by field. */
  lemma Example110Code()
    ensures Encode(LiteralPacket(6, [6, 14]))
         == [true, true, false] + ([true, false, false]
            + ([true] + [false, true, true, false] + ([false] + [true, true, true, false])))
  {
    Bin3(6, true, true, false);
    Bin3(4, true, false, false);
    Bin4(6, false, true, true, false);
    Bin4(14, true, true, true, false);
    LiteralTwo(6, 6, 14);
  }

  /** "110100101100111000101000": the second group ends the literal, 110 at position 16. */
  lemma Example110(bits: seq<bool>)
    requires bits == [true, true, false] + ([true, false, false]
            + ([true] + [false, true, true, false] + ([false] + [true, true, true, false])))
                     + [false, false, true, false, true, false, false, false]
    ensures Parse(bits, 0, 0) == Ok(Parsed(110, 16, 6))
  {
    var p := LiteralPacket(6, [6, 14]);
    Example110Code();
    assert Value(p) == GroupsValue([6, 14], 0) == 110;
    ParseLiteralAt(bits, 0, 0, p, 110, 16, 6);
  }
}
