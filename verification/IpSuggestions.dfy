/** Free-address suggestions on the host's subnet: prefix arithmetic, dotted quads and the candidate loop. */
module IpSuggestions {
  import opened Strings
  import opened Bits
  import opened JsValue

  // ---- Prefixes (RFC 4632, section 3.1) ----

  function PrefixToMask(prefix: nat): Word
    requires prefix <= 32
  {
    if prefix == 0 then Zeros(32) else ShiftLeft(AllOnes(32), 32 - prefix)
  }

  function Network(ip: Word, prefix: nat): Word
    requires prefix <= 32
  {
    And(ip, PrefixToMask(prefix))
  }

  function Broadcast(ip: Word, prefix: nat): Word
    requires prefix <= 32
  {
    Or(Network(ip, prefix), Not(PrefixToMask(prefix)))
  }

  lemma MaskBits(prefix: nat)
    requires prefix <= 32
    ensures PrefixToMask(prefix) == Zeros(32 - prefix) + AllOnes(prefix)
  {
    assert AllOnes(32)[..prefix] == AllOnes(prefix);
    assert prefix == 0 ==> Zeros(32) == Zeros(32) + AllOnes(0);
  }

  lemma SubnetBits(ip: Word, prefix: nat)
    requires prefix <= 32
    ensures Network(ip, prefix) == Zeros(32 - prefix) + ip[32 - prefix..]
    ensures Broadcast(ip, prefix) == AllOnes(32 - prefix) + ip[32 - prefix..]
  {
    MaskBits(prefix);
  }

  /** Between two multiples of p there is only the lower one's remainders. */
  lemma SameBlock(p: nat, l: nat, a: nat, b: nat)
    requires l < p
    ensures p * b <= l + p * a <= p * b + p - 1 <==> a == b
  {
    if a < b {
      assert p * (a + 1) <= p * b;
    } else if a > b {
      assert p * (b + 1) <= p * a;
    }
  }

  lemma SameSuffix(low: seq<bool>, g: seq<bool>, h: seq<bool>)
    ensures low + g == low + h <==> g == h
  {
    assert (low + g)[|low|..] == g && (low + h)[|low|..] == h;
  }

  lemma SubnetValues(ip: Word, prefix: nat)
    requires prefix <= 32
    ensures var k := 32 - prefix;
      Unsigned(Network(ip, prefix)) == Pow2(k) * Unsigned(ip[k..]) &&
      Unsigned(Broadcast(ip, prefix)) == Pow2(k) * Unsigned(ip[k..]) + (Pow2(k) - 1)
  {
    var k := 32 - prefix;
    SubnetBits(ip, prefix);
    ValueOfParts(Zeros(k), ip[k..]);
    ValueOfParts(AllOnes(k), ip[k..]);
    ValueOfConstants(k);
  }

  lemma WordValue(x: Word, k: nat)
    requires k <= 32
    ensures Unsigned(x) == Unsigned(x[..k]) + Pow2(k) * Unsigned(x[k..]) && Unsigned(x[..k]) < Pow2(k)
  {
    assert x == x[..k] + x[k..];
    ValueOfParts(x[..k], x[k..]);
    ValueFits(x[..k]);
  }

  lemma MaskedSame(ip: Word, x: Word, prefix: nat)
    requires prefix <= 32
    ensures var k := 32 - prefix;
      And(x, PrefixToMask(prefix)) == Network(ip, prefix) <==> Unsigned(x[k..]) == Unsigned(ip[k..])
  {
    var k := 32 - prefix;
    SubnetBits(ip, prefix);
    SubnetBits(x, prefix);
    SameSuffix(Zeros(k), x[k..], ip[k..]);
    SameValueSameBits(x[k..], ip[k..]);
  }

  /** The masked comparison tells exactly the addresses from network to broadcast. */
  lemma SubnetIsInterval(ip: Word, x: Word, prefix: nat)
    requires prefix <= 32
    ensures And(x, PrefixToMask(prefix)) == Network(ip, prefix) <==>
      Unsigned(Network(ip, prefix)) <= Unsigned(x) <= Unsigned(Broadcast(ip, prefix))
  {
    var k := 32 - prefix;
    MaskedSame(ip, x, prefix);
    SubnetValues(ip, prefix);
    WordValue(x, k);
    SameBlock(Pow2(k), Unsigned(x[..k]), Unsigned(x[k..]), Unsigned(ip[k..]));
  }

  // ---- Dotted quads ----

  /** `Number(octet) & 255` */
  function Octet(n: Number): nat {
    match n
    case Finite(r) => (if r >= 0.0 then r.Floor else -((-r).Floor)) % 256
    case _ => 0
  }

  function Reduce(parse: string -> Number, octets: seq<string>): nat {
    if |octets| == 0 then 0 else Reduce(parse, Init(octets)) * 256 + Octet(parse(Last(octets)))
  }

  /** The integer an address reads as, cut to 32 bits. */
  function IpToInt(parse: string -> Number, ip: string): (n: nat)
    ensures n < 0x1_0000_0000
  {
    Reduce(parse, Split(ip, '.')) % 0x1_0000_0000
  }

  function Quad(a: nat, b: nat, c: nat, d: nat): string {
    Join([Decimal(a), Decimal(b), Decimal(c), Decimal(d)], ".")
  }

  function Pack(a: nat, b: nat, c: nat, d: nat): nat {
    ((a * 256 + b) * 256 + c) * 256 + d
  }

  function IntToIp(n: nat): string {
    Quad(n / 0x100_0000 % 256, n / 0x1_0000 % 256, n / 0x100 % 256, n % 256)
  }

  /** Four decimal octets without leading zeros, and nothing else. */
  ghost predicate Canonical(ip: string) {
    exists a, b, c, d :: 0 <= a < 256 && 0 <= b < 256 && 0 <= c < 256 && 0 <= d < 256 && ip == Quad(a, b, c, d)
  }

  /** Reading a printed decimal gives the number back. */
  ghost predicate ReadsDecimals(parse: string -> Number) {
    forall n: nat :: parse(Decimal(n)) == Finite(n as real)
  }

  lemma QuadReads(parse: string -> Number, a: nat, b: nat, c: nat, d: nat)
    requires ReadsDecimals(parse) && a < 256 && b < 256 && c < 256 && d < 256
    ensures IpToInt(parse, Quad(a, b, c, d)) == Pack(a, b, c, d)
  {
    var octets := [Decimal(a), Decimal(b), Decimal(c), Decimal(d)];
    SplitJoin(octets, '.');
    OctetOfByte(a);
    OctetOfByte(b);
    OctetOfByte(c);
    OctetOfByte(d);
    ReduceFour(parse, Decimal(a), Decimal(b), Decimal(c), Decimal(d));
  }

  lemma ReduceFour(parse: string -> Number, p: string, q: string, r: string, s: string)
    ensures Reduce(parse, [p, q, r, s]) == Pack(Octet(parse(p)), Octet(parse(q)), Octet(parse(r)), Octet(parse(s)))
  {
    assert Init([p, q, r, s]) == [p, q, r] && Init([p, q, r]) == [p, q] && Init([p, q]) == [p] && Init([p]) == [];
    assert Reduce(parse, [p]) == Octet(parse(p));
    assert Reduce(parse, [p, q]) == Octet(parse(p)) * 256 + Octet(parse(q));
  }

  lemma OctetOfByte(n: nat)
    requires n < 256
    ensures Octet(Finite(n as real)) == n
  {
    assert (n as real).Floor == n;
  }

  lemma BytesOfInt(n: nat) returns (a: nat, b: nat, c: nat, d: nat)
    requires n < 0x1_0000_0000
    ensures a < 256 && b < 256 && c < 256 && d < 256
    ensures n == Pack(a, b, c, d)
    ensures IntToIp(n) == Quad(a, b, c, d)
  {
    a, b, c, d := n / 0x100_0000 % 256, n / 0x1_0000 % 256, n / 0x100 % 256, n % 256;
    var x, y, z := n / 0x100, n / 0x1_0000, n / 0x100_0000;
    assert x / 256 == y && y / 256 == z && z % 256 == z;
    assert n == x * 256 + d && x == y * 256 + c && y == z * 256 + b;
  }

  lemma QuotientAndRest(q: nat, r: nat)
    requires r < 256
    ensures (q * 256 + r) / 256 == q && (q * 256 + r) % 256 == r
  {
  }

  lemma UnpackPack(a: nat, b: nat, c: nat, d: nat)
    requires a < 256 && b < 256 && c < 256 && d < 256
    ensures var n := Pack(a, b, c, d);
      n / 0x100_0000 % 256 == a && n / 0x1_0000 % 256 == b && n / 0x100 % 256 == c && n % 256 == d
  {
    var y := a * 256 + b;
    var x := y * 256 + c;
    var n := x * 256 + d;
    QuotientAndRest(y, c);
    QuotientAndRest(x, d);
    assert n / 0x1_0000 == x / 256 && n / 0x100_0000 == y / 256;
  }

  lemma IntOfBytes(a: nat, b: nat, c: nat, d: nat)
    requires a < 256 && b < 256 && c < 256 && d < 256
    ensures IntToIp(Pack(a, b, c, d)) == Quad(a, b, c, d)
  {
    UnpackPack(a, b, c, d);
  }

  lemma PrintReadQuad(parse: string -> Number, a: nat, b: nat, c: nat, d: nat)
    requires ReadsDecimals(parse) && a < 256 && b < 256 && c < 256 && d < 256
    ensures IntToIp(IpToInt(parse, Quad(a, b, c, d))) == Quad(a, b, c, d)
  {
    QuadReads(parse, a, b, c, d);
    IntOfBytes(a, b, c, d);
  }

  /** Reading a printed address gives the integer back. */
  lemma IpRoundTrip(parse: string -> Number, n: nat)
    requires ReadsDecimals(parse) && n < 0x1_0000_0000
    ensures IpToInt(parse, IntToIp(n)) == n
  {
    var a, b, c, d := BytesOfInt(n);
    QuadReads(parse, a, b, c, d);
  }

  /** Printing a read address gives the text back exactly when the text is canonical. */
  lemma PrintAfterRead(parse: string -> Number, ip: string)
    requires ReadsDecimals(parse)
    ensures IntToIp(IpToInt(parse, ip)) == ip <==> Canonical(ip)
  {
    var n := IpToInt(parse, ip);
    var a, b, c, d := BytesOfInt(n);
    assert Canonical(IntToIp(n));
    if Canonical(ip) {
      var a', b', c', d' :| 0 <= a' < 256 && 0 <= b' < 256 && 0 <= c' < 256 && 0 <= d' < 256 &&
        ip == Quad(a', b', c', d');
      PrintReadQuad(parse, a', b', c', d');
    }
  }

  // ---- The suggestions ----

  /** All addresses from `from` up to before `to` whose text is unused, in rising order. */
  function FreeBetween(write: nat -> string, from: nat, to: nat, used: set<string>): seq<nat>
    decreases if from < to then to - from else 0
  {
    if from >= to then []
    else if write(from) in used then FreeBetween(write, from + 1, to, used)
    else [from] + FreeBetween(write, from + 1, to, used)
  }

  function Written(write: nat -> string, ns: seq<nat>): (ips: seq<string>)
    ensures |ips| == |ns| && forall i :: 0 <= i < |ns| ==> ips[i] == write(ns[i])
  {
    seq(|ns|, i requires 0 <= i < |ns| => write(ns[i]))
  }

  function FirstOf<T>(s: seq<T>, n: nat): seq<T> {
    if |s| <= n then s else s[..n]
  }

  predicate Rising(ns: seq<nat>) {
    forall i, j :: 0 <= i < j < |ns| ==> ns[i] < ns[j]
  }

  /** The addresses listed are exactly the free ones, strictly rising: a prefix of the list is the smallest of them. */
  lemma {:induction false} FreeBetweenExact(write: nat -> string, from: nat, to: nat, used: set<string>)
    ensures forall n: nat :: n in FreeBetween(write, from, to, used) <==> from <= n < to && write(n) !in used
    ensures Rising(FreeBetween(write, from, to, used))
    decreases if from < to then to - from else 0
  {
    if from < to {
      FreeBetweenExact(write, from + 1, to, used);
      var rest := FreeBetween(write, from + 1, to, used);
      forall i | 0 <= i < |rest| ensures from < rest[i] {
        assert rest[i] in rest;
      }
    }
  }

  /** A prefix of a rising list holds its smallest members, and min(n, all) of them. */
  lemma FirstAreSmallest(free: seq<nat>, n: nat)
    requires Rising(free)
    ensures |FirstOf(free, n)| == if |free| <= n then |free| else n
    ensures Rising(FirstOf(free, n)) && forall m :: m in FirstOf(free, n) ==> m in free
    ensures forall a, b :: a in FirstOf(free, n) && b in free && b !in FirstOf(free, n) ==> a < b
  {
    forall j | 0 <= j < |FirstOf(free, n)| ensures free[j] in FirstOf(free, n) {
      assert FirstOf(free, n)[j] == free[j];
    }
    forall a, b | a in FirstOf(free, n) && b in free && b !in FirstOf(free, n) ensures a < b {
      var i :| 0 <= i < |FirstOf(free, n)| && FirstOf(free, n)[i] == a;
      var j :| 0 <= j < |free| && free[j] == b;
    }
  }

  lemma WrittenPush(write: nat -> string, ns: seq<nat>, n: nat)
    ensures Written(write, ns + [n]) == Written(write, ns) + [write(n)]
  {
  }

  /** Of all that is to be listed, `taken` is written down and `rest` is to come. */
  ghost predicate Progress(write: nat -> string, all: seq<nat>, taken: seq<nat>, texts: seq<string>, rest: seq<nat>) {
    all == taken + rest && texts == Written(write, taken)
  }

  lemma ProgressStart(write: nat -> string, all: seq<nat>)
    ensures Progress(write, all, [], [], all)
  {
  }

  lemma ProgressPush(
    write: nat -> string, all: seq<nat>, taken: seq<nat>, texts: seq<string>, n: nat, rest: seq<nat>)
    requires Progress(write, all, taken, texts, [n] + rest)
    ensures Progress(write, all, taken + [n], texts + [write(n)], rest)
  {
    WrittenPush(write, taken, n);
    assert taken + ([n] + rest) == (taken + [n]) + rest;
  }

  lemma ProgressDone(
    write: nat -> string, all: seq<nat>, taken: seq<nat>, texts: seq<string>, rest: seq<nat>, count: nat)
    requires Progress(write, all, taken, texts, rest)
    requires |taken| == count || (rest == [] && |taken| < count)
    ensures texts == Written(write, FirstOf(all, count))
  {
    assert FirstOf(all, count) == taken;
  }

  /** The candidate loop. */
  method Suggest(write: nat -> string, network: nat, broadcast: nat, used: set<string>, count: nat)
    returns (suggestions: seq<string>)
    requires count > 0
    ensures suggestions == Written(write, FirstOf(FreeBetween(write, network + 1, broadcast, used), count))
  {
    suggestions := [];
    ghost var all, taken: seq<nat> := FreeBetween(write, network + 1, broadcast, used), [];
    ProgressStart(write, all);
    var candidate := network + 1;
    while candidate < broadcast
      invariant Progress(write, all, taken, suggestions, FreeBetween(write, candidate, broadcast, used))
      invariant |taken| == |suggestions| < count
    {
      ghost var rest := FreeBetween(write, candidate + 1, broadcast, used);
      var ip := write(candidate);
      if ip !in used {
        ProgressPush(write, all, taken, suggestions, candidate, rest);
        suggestions, taken := suggestions + [ip], taken + [candidate];
        if |suggestions| >= count {
          ProgressDone(write, all, taken, suggestions, rest, count);
          return;
        }
      }
      candidate := candidate + 1;
    }
    ProgressDone(write, all, taken, suggestions, [], count);
  }

  // ---- The suggestions of a subnet, in any notation of addresses ----

  /** How addresses are read and written; dotted quads are one notation. */
  datatype Notation = Notation(read: string -> nat, write: nat -> string) {
    /** A written address reads back, and what is read is an address. */
    ghost predicate Lawful() {
      (forall n: nat :: n < 0x1_0000_0000 ==> read(write(n)) == n) && forall ip :: read(ip) < 0x1_0000_0000
    }

    /** Written as its address is written. */
    predicate Plain(ip: string) {
      write(read(ip)) == ip
    }
  }

  function DottedQuads(parse: string -> Number): Notation {
    Notation(ip => IpToInt(parse, ip), IntToIp)
  }

  lemma DottedQuadsAreLawful(parse: string -> Number)
    requires ReadsDecimals(parse)
    ensures DottedQuads(parse).Lawful()
    ensures forall ip :: DottedQuads(parse).Plain(ip) <==> Canonical(ip)
  {
    forall n: nat | n < 0x1_0000_0000 ensures IpToInt(parse, IntToIp(n)) == n {
      IpRoundTrip(parse, n);
    }
    forall ip ensures IntToIp(IpToInt(parse, ip)) == ip <==> Canonical(ip) {
      PrintAfterRead(parse, ip);
    }
  }

  predicate InSubnet(t: Notation, host: Word, prefix: nat, ip: string)
    requires prefix <= 32
  {
    And(ToWord(t.read(ip)), PrefixToMask(prefix)) == Network(host, prefix)
  }

  /** The addresses taken on the subnet of the host. */
  function Used(t: Notation, host: Word, prefix: nat, taken: seq<string>): set<string>
    requires prefix <= 32
  {
    set ip | ip in taken && InSubnet(t, host, prefix, ip)
  }

  /** Exactly the taken texts whose address lies between network and broadcast address, these two included. */
  ghost predicate TakenOnSubnet(t: Notation, host: Word, prefix: nat, taken: seq<string>, used: set<string>)
    requires prefix <= 32
  {
    forall ip :: ip in used <==>
      ip in taken && Unsigned(Network(host, prefix)) <= t.read(ip) <= Unsigned(Broadcast(host, prefix))
  }

  lemma UsedIsTakenOnSubnet(t: Notation, host: Word, prefix: nat, taken: seq<string>)
    requires t.Lawful() && prefix <= 32
    ensures TakenOnSubnet(t, host, prefix, taken, Used(t, host, prefix, taken))
  {
    forall ip
      ensures InSubnet(t, host, prefix, ip) <==>
        Unsigned(Network(host, prefix)) <= t.read(ip) <= Unsigned(Broadcast(host, prefix))
    {
      InSubnetIsInterval(t, host, prefix, ip);
    }
  }

  /** The addresses the loop chooses from. */
  function Candidates(t: Notation, host: Word, prefix: nat, taken: seq<string>): seq<nat>
    requires prefix <= 32
  {
    FreeBetween(t.write, Unsigned(Network(host, prefix)) + 1, Unsigned(Broadcast(host, prefix)),
      Used(t, host, prefix, taken))
  }

  /** A host address of the subnet that no taken address written plainly stands for. */
  ghost predicate IsCandidate(t: Notation, host: Word, prefix: nat, taken: seq<string>, n: nat)
    requires prefix <= 32
  {
    Unsigned(Network(host, prefix)) < n < Unsigned(Broadcast(host, prefix)) &&
    forall ip :: ip in taken && t.Plain(ip) ==> t.read(ip) != n
  }

  /** Rising candidates, at most `count`; one left out is beyond them all, and the count is then reached. */
  ghost predicate SmallestCandidates(
    t: Notation, host: Word, prefix: nat, taken: seq<string>, count: nat, ns: seq<nat>)
    requires prefix <= 32
  {
    Rising(ns) && |ns| <= count && (forall n :: n in ns ==> IsCandidate(t, host, prefix, taken, n)) &&
    forall n :: IsCandidate(t, host, prefix, taken, n) && n !in ns ==> |ns| == count && forall m :: m in ns ==> m < n
  }

  /**
   The handler's core: what is taken on the subnet of the host address, and the smallest `count` free addresses of it,
   rising.
   */
  method SuggestOnSubnet(t: Notation, host: Word, prefix: nat, taken: seq<string>, count: nat)
    returns (used: set<string>, suggestions: seq<string>)
    requires prefix <= 32 && 1 <= count <= 256
    ensures used == Used(t, host, prefix, taken)
    ensures t.Lawful() ==> TakenOnSubnet(t, host, prefix, taken, used)
    ensures suggestions == Written(t.write, FirstOf(Candidates(t, host, prefix, taken), count))
    ensures t.Lawful() ==>
      SmallestCandidates(t, host, prefix, taken, count, FirstOf(Candidates(t, host, prefix, taken), count))
  {
    used := Used(t, host, prefix, taken);
    suggestions := Suggest(t.write, Unsigned(Network(host, prefix)), Unsigned(Broadcast(host, prefix)), used, count);
    if t.Lawful() {
      UsedIsTakenOnSubnet(t, host, prefix, taken);
      ChosenAreSmallest(t, host, prefix, taken, count);
    }
  }

  /** In terms of integers, the subnet test is the interval test. */
  lemma InSubnetIsInterval(t: Notation, host: Word, prefix: nat, ip: string)
    requires prefix <= 32 && t.read(ip) < 0x1_0000_0000
    ensures InSubnet(t, host, prefix, ip) <==>
      Unsigned(Network(host, prefix)) <= t.read(ip) <= Unsigned(Broadcast(host, prefix))
  {
    KnownPowers();
    WordRoundTrip(host, t.read(ip));
    SubnetIsInterval(host, ToWord(t.read(ip)), prefix);
  }

  lemma HostAddressFits(host: Word, prefix: nat, n: nat)
    requires prefix <= 32 && n < Unsigned(Broadcast(host, prefix))
    ensures n < 0x1_0000_0000
  {
    KnownPowers();
    ValueFits(Broadcast(host, prefix));
  }

  lemma WrittenIsUsed(t: Notation, host: Word, prefix: nat, taken: seq<string>, n: nat)
    requires t.Lawful() && prefix <= 32
    requires Unsigned(Network(host, prefix)) < n < Unsigned(Broadcast(host, prefix))
    ensures t.write(n) in Used(t, host, prefix, taken) <==> t.write(n) in taken
  {
    HostAddressFits(host, prefix, n);
    InSubnetIsInterval(t, host, prefix, t.write(n));
  }

  /** An address is among the texts taken exactly when one of them is plain and reads as it. */
  lemma TakenExactly(t: Notation, taken: seq<string>, n: nat)
    requires t.Lawful() && n < 0x1_0000_0000
    ensures t.write(n) in taken <==> exists ip :: ip in taken && t.Plain(ip) && t.read(ip) == n
  {
    assert t.Plain(t.write(n)) && t.read(t.write(n)) == n;
  }

  /**
   The candidates are exactly the host addresses of the subnet that no taken address written plainly stands for. The
   loop compares text, so a taken address written any other way, say with its prefix length behind it, keeps nothing
   out.
   */
  lemma CandidatesExactly(t: Notation, host: Word, prefix: nat, taken: seq<string>, n: nat)
    requires t.Lawful() && prefix <= 32
    ensures n in Candidates(t, host, prefix, taken) <==> IsCandidate(t, host, prefix, taken, n)
  {
    var low, high := Unsigned(Network(host, prefix)), Unsigned(Broadcast(host, prefix));
    FreeBetweenExact(t.write, low + 1, high, Used(t, host, prefix, taken));
    if low < n < high {
      HostAddressFits(host, prefix, n);
      WrittenIsUsed(t, host, prefix, taken, n);
      TakenExactly(t, taken, n);
    }
  }

  lemma ChosenAreSmallest(t: Notation, host: Word, prefix: nat, taken: seq<string>, count: nat)
    requires t.Lawful() && prefix <= 32
    ensures SmallestCandidates(t, host, prefix, taken, count, FirstOf(Candidates(t, host, prefix, taken), count))
  {
    var free := Candidates(t, host, prefix, taken);
    FreeBetweenExact(t.write, Unsigned(Network(host, prefix)) + 1, Unsigned(Broadcast(host, prefix)),
      Used(t, host, prefix, taken));
    FirstAreSmallest(free, count);
    forall n ensures n in free <==> IsCandidate(t, host, prefix, taken, n) {
      CandidatesExactly(t, host, prefix, taken, n);
    }
  }

  // ---- A pin with a prefix length ----

  const PIN := "10.0.0.5/24"
  const PINNED := 0x0a00_0005

  lemma QuadHasNoSlash(a: nat, b: nat, c: nat, d: nat)
    ensures '/' !in Quad(a, b, c, d)
  {
    assert forall s :: s in [Decimal(a), Decimal(b), Decimal(c), Decimal(d)] ==> '/' !in s;
    JoinHas([Decimal(a), Decimal(b), Decimal(c), Decimal(d)], ".", '/');
  }

  lemma {:induction false} JoinHas(pieces: seq<string>, sep: string, c: char)
    requires c !in sep && forall p :: p in pieces ==> c !in p
    ensures c !in Join(pieces, sep)
  {
    if |pieces| > 1 {
      JoinHas(pieces[1..], sep, c);
    }
  }

  lemma PinIsNotCanonical()
    ensures !Canonical(PIN)
  {
    assert PIN[8] == '/';
    forall a, b, c, d | 0 <= a < 256 && 0 <= b < 256 && 0 <= c < 256 && 0 <= d < 256 ensures PIN != Quad(a, b, c, d) {
      QuadHasNoSlash(a, b, c, d);
    }
  }

  /** The pin names 10.0.0.5 and takes nothing: 10.0.0.5 stays a candidate on every subnet it lies in. */
  lemma PinWithPrefixTakesNothing(parse: string -> Number, host: Word, prefix: nat)
    requires ReadsDecimals(parse) && prefix <= 32
    requires Unsigned(Network(host, prefix)) < PINNED < Unsigned(Broadcast(host, prefix))
    ensures PINNED in Candidates(DottedQuads(parse), host, prefix, [PIN])
  {
    PinIsNotCanonical();
    DottedQuadsAreLawful(parse);
    CandidatesExactly(DottedQuads(parse), host, prefix, [PIN], PINNED);
  }

  lemma JoinFour(a: string, b: string, c: string, d: string, sep: string)
    ensures Join([a, b, c, d], sep) == a + sep + (b + sep + (c + sep + d))
  {
    assert [a, b, c, d][1..] == [b, c, d] && [b, c, d][1..] == [c, d] && [c, d][1..] == [d];
    assert Join([c, d], sep) == c + sep + d;
    assert Join([b, c, d], sep) == b + sep + (c + sep + d);
  }

  lemma QuadIsTenFive()
    ensures Quad(10, 0, 0, 5) == "10.0.0.5"
  {
    JoinFour(Decimal(10), Decimal(0), Decimal(0), Decimal(5), ".");
    assert Decimal(10) == "10" && Decimal(0) == "0" && Decimal(5) == "5";
  }

  lemma PinnedPrints()
    ensures IntToIp(PINNED) == "10.0.0.5"
  {
    assert Pack(10, 0, 0, 5) == PINNED;
    IntOfBytes(10, 0, 0, 5);
    QuadIsTenFive();
  }

  /** A subnet starts at its host address rounded down to a multiple of its size and ends just before the next one. */
  lemma SubnetBounds(host: Word, prefix: nat)
    requires prefix <= 32
    ensures var p, n := Pow2(32 - prefix), Unsigned(host);
      Unsigned(Network(host, prefix)) == n - n % p && Unsigned(Broadcast(host, prefix)) == n - n % p + (p - 1)
  {
    var k := 32 - prefix;
    SubnetValues(host, prefix);
    WordValue(host, k);
    Remainder(Pow2(k), Unsigned(host[k..]), Unsigned(host[..k]));
  }

  lemma Remainder(p: nat, q: nat, r: nat)
    requires r < p
    ensures (r + p * q) % p == r
  {
    SameBlock(p, (r + p * q) % p, (r + p * q) / p, q);
  }

  /** So on the host 10.0.0.1/24, with only that pin, the suggestions include the pinned address. */
  lemma PinnedAddressIsSuggested(parse: string -> Number)
    requires ReadsDecimals(parse)
    ensures IntToIp(PINNED) == "10.0.0.5"
    ensures PINNED in Candidates(DottedQuads(parse), ToWord(0x0a00_0001), 24, [PIN])
  {
    PinnedPrints();
    KnownPowers();
    WordRoundTrip(ToWord(0x0a00_0001), 0x0a00_0001);
    SubnetBounds(ToWord(0x0a00_0001), 24);
    PinWithPrefixTakesNothing(parse, ToWord(0x0a00_0001), 24);
  }
}
