/**
  The state of the command-line packet test run (package
  com.inkapplications.ack.cli.parse) and the summary values derived from a
  completed run: how many lines passed, failed or decoded to an unknown
  payload, and which leading body characters the unknown payloads start with.
*/
module CliParse {
  import opened Grouping

  /** The test file being parsed; only carried. */
  type File(==)
  /** How long the run took; only carried. */
  type Duration(==)

  /** The payload of a decoded packet. `Unknown` keeps the body the decoder did
      not recognise; every other payload kind is `Other` here. */
  datatype PacketData = Unknown(body: string) | Other

  /** A decoded packet, reduced to its payload. */
  datatype AprsPacket = AprsPacket(data: PacketData)

  /** The outcome of decoding one line of the test file. */
  datatype LineStatus = Passed(packet: AprsPacket) | Failed

  datatype ParserState =
    | Initializing(testFile: File)
    | Running(testFile: File, complete: int, total: int)
    | Complete(testFile: File, tests: seq<LineStatus>, time: Duration)

  /** A runtime value as Kotlin's `filterIsInstance` inspects it: a packet, or
      a packet payload. */
  datatype Instance = PacketInstance(packet: AprsPacket) | DataInstance(data: PacketData)

  /** The test of line 18: the packet's payload is `PacketData.Unknown`. */
  predicate HasUnknownData(p: AprsPacket)
  {
    p.data.Unknown?
  }

  /** The test of line 21: the value itself is a `PacketData.Unknown`. */
  predicate IsUnknownInstance(x: Instance)
  {
    x.DataInstance? && x.data.Unknown?
  }

  // ---------------------------------------------------------------------------
  // passed, failed, unknown

  /** `tests.filterIsInstance<LineStatus.Passed>().map { it.packet }` */
  function PassedPackets(tests: seq<LineStatus>): (r: seq<AprsPacket>)
    ensures |r| <= |tests|
    ensures forall p :: p in r <==> Passed(p) in tests
  {
    if tests == [] then []
    else
      assert tests == [tests[0]] + tests[1..];
      (if tests[0].Passed? then [tests[0].packet] else []) + PassedPackets(tests[1..])
  }

  /** One packet per `Passed` line that carries it. */
  lemma {:induction false} PassedPacketsMultiplicity(tests: seq<LineStatus>, p: AprsPacket)
    ensures multiset(PassedPackets(tests))[p] == multiset(tests)[Passed(p)]
  {
    if tests != [] {
      PassedPacketsMultiplicity(tests[1..], p);
      assert tests == [tests[0]] + tests[1..];
    }
  }

  /** `passed`: every line that did not fail. */
  function PassedCount(tests: seq<LineStatus>): (n: nat)
    ensures n + FailedCount(tests) == |tests|
  {
    PassedAndFailedCoverAllLines(tests);
    |PassedPackets(tests)|
  }

  /** `failed` */
  function FailedCount(tests: seq<LineStatus>): (n: nat)
    ensures n == multiset(tests)[Failed]
    ensures n <= |tests|
  {
    if tests == [] then 0
    else
      assert tests == [tests[0]] + tests[1..];
      (if tests[0].Failed? then 1 else 0) + FailedCount(tests[1..])
  }

  /** Every line is counted exactly once, as passed or as failed. */
  lemma {:induction false} PassedAndFailedCoverAllLines(tests: seq<LineStatus>)
    ensures |PassedPackets(tests)| + FailedCount(tests) == |tests|
  {
    if tests != [] {
      PassedAndFailedCoverAllLines(tests[1..]);
    }
  }

  /** The packets with an unknown payload, in order. */
  function WithUnknownData(packets: seq<AprsPacket>): (r: seq<AprsPacket>)
    ensures |r| <= |packets|
    ensures forall p :: p in r <==> p in packets && HasUnknownData(p)
  {
    if packets == [] then []
    else
      assert packets == [packets[0]] + packets[1..];
      (if HasUnknownData(packets[0]) then [packets[0]] else []) + WithUnknownData(packets[1..])
  }

  /** A packet with an unknown payload is kept as often as it occurs; any
      other packet is dropped. */
  lemma {:induction false} WithUnknownDataMultiplicity(packets: seq<AprsPacket>, p: AprsPacket)
    ensures multiset(WithUnknownData(packets))[p] ==
      (if HasUnknownData(p) then multiset(packets)[p] else 0)
  {
    if packets != [] {
      WithUnknownDataMultiplicity(packets[1..], p);
      assert packets == [packets[0]] + packets[1..];
    }
  }

  /** The number of passed lines whose payload is unknown, counted line by
      line. */
  function UnknownLines(tests: seq<LineStatus>): nat
  {
    if tests == [] then 0
    else (if tests[0].Passed? && HasUnknownData(tests[0].packet) then 1 else 0) + UnknownLines(tests[1..])
  }

  /** `unknown`: the passed lines whose payload is unknown, a subset of the
      passed lines. */
  function UnknownCount(tests: seq<LineStatus>): (n: nat)
    ensures n == UnknownLines(tests)
    ensures n <= PassedCount(tests)
    ensures n > 0 <==> exists p :: Passed(p) in tests && HasUnknownData(p)
  {
    var r := WithUnknownData(PassedPackets(tests));
    assert |r| > 0 ==> r[0] in r;
    FilteringTwiceCountsLines(tests);
    |r|
  }

  /** Filtering the passed lines, then their unknown payloads, counts the
      same lines as testing each line for both at once. */
  lemma {:induction false} FilteringTwiceCountsLines(tests: seq<LineStatus>)
    ensures |WithUnknownData(PassedPackets(tests))| == UnknownLines(tests)
  {
    if tests != [] {
      FilteringTwiceCountsLines(tests[1..]);
      var rest := PassedPackets(tests[1..]);
      if tests[0].Passed? {
        assert PassedPackets(tests) == [tests[0].packet] + rest;
        FilterConsLength(tests[0].packet, rest);
      } else {
        assert PassedPackets(tests) == rest;
      }
    }
  }

  lemma FilterConsLength(p: AprsPacket, rest: seq<AprsPacket>)
    ensures |WithUnknownData([p] + rest)| ==
      (if HasUnknownData(p) then 1 else 0) + |WithUnknownData(rest)|
  {
    assert ([p] + rest)[1..] == rest;
  }

  // ---------------------------------------------------------------------------
  // unidentifiedIdentifiers, topUnidentified (as the source computes them)

  /** `.map { it.packet }`, as the runtime values the next step inspects. */
  function AsInstances(packets: seq<AprsPacket>): (r: seq<Instance>)
    ensures |r| == |packets|
    ensures forall x :: x in r ==> x.PacketInstance?
  {
    seq(|packets|, i requires 0 <= i < |packets| => PacketInstance(packets[i]))
  }

  /** `.filterIsInstance<PacketData.Unknown>()`: the values that are unknown
      payloads, in order. */
  function UnknownInstances(xs: seq<Instance>): (r: seq<PacketData>)
    ensures |r| <= |xs|
    ensures forall d :: d in r <==> DataInstance(d) in xs && d.Unknown?
  {
    if xs == [] then []
    else
      assert xs == [xs[0]] + xs[1..];
      (if IsUnknownInstance(xs[0]) then [xs[0].data] else []) + UnknownInstances(xs[1..])
  }

  /** Each unknown payload is kept as often as it occurs; nothing else is. */
  lemma {:induction false} UnknownInstancesMultiplicity(xs: seq<Instance>, d: PacketData)
    ensures multiset(UnknownInstances(xs))[d] ==
      (if d.Unknown? then multiset(xs)[DataInstance(d)] else 0)
  {
    if xs != [] {
      UnknownInstancesMultiplicity(xs[1..], d);
      assert xs == [xs[0]] + xs[1..];
    }
  }

  /** `.groupBy { it.body[0] }` reads the first body character of each
      payload, so each body must be non-empty. */
  function FirstCharacters(payloads: seq<PacketData>): (keys: seq<char>)
    requires forall d :: d in payloads ==> d.Unknown? && |d.body| > 0
  {
    seq(|payloads|, i requires 0 <= i < |payloads| => payloads[i].body[0])
  }

  /** `unidentifiedIdentifiers`, with the filter of line 21 as written. */
  function UnidentifiedIdentifiers(tests: seq<LineStatus>): (r: seq<(char, nat)>)
    ensures DistinctKeys(r) && NonIncreasing(r)
    ensures Total(r) == |UnknownInstances(AsInstances(PassedPackets(tests)))|
  {
    var payloads := UnknownInstances(AsInstances(PassedPackets(tests)));
    GroupedByCountDescending(FirstCharacters(payloads));
    SortByCountDescending(GroupCounts(FirstCharacters(payloads)))
  }

  /** `topUnidentified`: the first five entries of `unidentifiedIdentifiers`,
      or all of them when there are fewer, so the most frequent ones. */
  function TopUnidentified(tests: seq<LineStatus>): (t: seq<(char, nat)>)
    ensures t <= UnidentifiedIdentifiers(tests)
    ensures |t| == if |UnidentifiedIdentifiers(tests)| < 5 then |UnidentifiedIdentifiers(tests)| else 5
    ensures forall i, j :: 0 <= i < |t| <= j < |UnidentifiedIdentifiers(tests)| ==>
      t[i].1 >= UnidentifiedIdentifiers(tests)[j].1
  {
    Top(UnidentifiedIdentifiers(tests), 5)
  }

  /** The filter of line 21 is applied to packets, which are never payloads,
      so nothing is ever grouped: the report lists no identifier, however many
      lines have an unknown payload. */
  lemma UnidentifiedIdentifiersAreEmpty(tests: seq<LineStatus>)
    ensures UnknownInstances(AsInstances(PassedPackets(tests))) == []
    ensures UnidentifiedIdentifiers(tests) == [] && TopUnidentified(tests) == []
  {
    var payloads := UnknownInstances(AsInstances(PassedPackets(tests)));
    NoPacketIsAPayload(AsInstances(PassedPackets(tests)));
    assert FirstCharacters(payloads) == [];
  }

  lemma {:induction false} NoPacketIsAPayload(xs: seq<Instance>)
    requires forall x :: x in xs ==> x.PacketInstance?
    ensures UnknownInstances(xs) == []
  {
    if xs != [] {
      assert xs[0] in xs;
      assert forall x :: x in xs[1..] ==> x in xs;
      NoPacketIsAPayload(xs[1..]);
    }
  }

  /** One line whose payload is unknown: it is counted as unknown, and yet
      `unidentifiedIdentifiers` is empty. */
  lemma UnknownLineIsNotGrouped()
    ensures var tests := [Passed(AprsPacket(Unknown("}abc")))];
      UnknownCount(tests) == 1 && UnidentifiedIdentifiers(tests) == []
  {
  }

  // ---------------------------------------------------------------------------
  // unidentifiedIdentifiers as evidently intended: grouping `it.packet.data`

  /** Every passed line with an unknown payload has a non-empty body. */
  predicate UnknownBodiesNonEmpty(tests: seq<LineStatus>)
  {
    forall i :: 0 <= i < |tests| && tests[i].Passed? && tests[i].packet.data.Unknown? ==>
      |tests[i].packet.data.body| > 0
  }

  /** The payloads of some packets, in order. */
  function DataOf(packets: seq<AprsPacket>): (r: seq<PacketData>)
    ensures |r| == |packets|
    ensures forall i :: 0 <= i < |r| ==> r[i] == packets[i].data
    ensures forall d :: d in r <==> AprsPacket(d) in packets
  {
    if packets == [] then []
    else
      assert packets == [packets[0]] + packets[1..];
      [packets[0].data] + DataOf(packets[1..])
  }

  lemma {:induction false} DataOfMultiplicity(packets: seq<AprsPacket>, d: PacketData)
    ensures multiset(DataOf(packets))[d] == multiset(packets)[AprsPacket(d)]
  {
    if packets != [] {
      DataOfMultiplicity(packets[1..], d);
      assert packets == [packets[0]] + packets[1..];
    }
  }

  /** The unknown payloads of the passed lines, in order. */
  function UnknownPayloads(tests: seq<LineStatus>): (r: seq<PacketData>)
    ensures |r| == UnknownCount(tests)
    ensures forall d :: d in r <==> d.Unknown? && Passed(AprsPacket(d)) in tests
  {
    DataOf(WithUnknownData(PassedPackets(tests)))
  }

  /** Each unknown payload occurs once per passed line that carries it, and
      no other payload occurs. */
  lemma UnknownPayloadsMultiplicity(tests: seq<LineStatus>, d: PacketData)
    ensures multiset(UnknownPayloads(tests))[d] ==
      (if d.Unknown? then multiset(tests)[Passed(AprsPacket(d))] else 0)
  {
    var packets := PassedPackets(tests);
    DataOfMultiplicity(WithUnknownData(packets), d);
    WithUnknownDataMultiplicity(packets, AprsPacket(d));
    PassedPacketsMultiplicity(tests, AprsPacket(d));
  }

  /** The unknown payloads of a run whose unknown bodies are non-empty. */
  lemma UnknownPayloadBodies(tests: seq<LineStatus>)
    requires UnknownBodiesNonEmpty(tests)
    ensures forall d :: d in UnknownPayloads(tests) ==> d.Unknown? && |d.body| > 0
  {
  }

  /** The leading characters of the unknown payloads, in order. */
  function UnknownLeaders(tests: seq<LineStatus>): (keys: seq<char>)
    requires UnknownBodiesNonEmpty(tests)
    ensures |keys| == UnknownCount(tests)
    ensures forall i :: 0 <= i < |keys| ==>
      UnknownPayloads(tests)[i].Unknown? && |UnknownPayloads(tests)[i].body| > 0 &&
      keys[i] == UnknownPayloads(tests)[i].body[0]
  {
    var payloads := UnknownPayloads(tests);
    UnknownPayloadBodies(tests);
    assert forall j :: 0 <= j < |payloads| ==> payloads[j] in payloads;
    FirstCharacters(payloads)
  }

  /** The leading body characters of the passed lines with an unknown
      payload, taken line by line in file order. */
  function LineLeaders(tests: seq<LineStatus>): seq<char>
    requires UnknownBodiesNonEmpty(tests)
  {
    if tests == [] then []
    else
      BodiesNonEmptyTail(tests);
      (if tests[0].Passed? && tests[0].packet.data.Unknown?
       then [tests[0].packet.data.body[0]] else []) + LineLeaders(tests[1..])
  }

  lemma BodiesNonEmptyTail(tests: seq<LineStatus>)
    requires tests != [] && UnknownBodiesNonEmpty(tests)
    ensures UnknownBodiesNonEmpty(tests[1..])
  {
    forall i | 0 <= i < |tests| - 1
      ensures tests[1..][i] == tests[i + 1]
    {
    }
  }

  /** The unknown payloads of a run are those of its first line followed by
      those of the rest. */
  lemma {:induction false} PayloadsCons(tests: seq<LineStatus>)
    requires tests != []
    ensures UnknownPayloads(tests) ==
      (if tests[0].Passed? && tests[0].packet.data.Unknown? then [tests[0].packet.data] else [])
      + UnknownPayloads(tests[1..])
  {
    var rest := PassedPackets(tests[1..]);
    if tests[0].Passed? {
      var p := tests[0].packet;
      assert PassedPackets(tests) == [p] + rest;
      assert ([p] + rest)[1..] == rest;
      if HasUnknownData(p) {
        var w := WithUnknownData(rest);
        assert WithUnknownData([p] + rest) == [p] + w;
        assert ([p] + w)[1..] == w;
      }
    } else {
      assert PassedPackets(tests) == rest;
    }
  }

  lemma FirstCharactersAppend(xs: seq<PacketData>, ys: seq<PacketData>)
    requires forall d :: d in xs + ys ==> d.Unknown? && |d.body| > 0
    ensures FirstCharacters(xs + ys) == FirstCharacters(xs) + FirstCharacters(ys)
  {
    assert forall d :: d in xs ==> d in xs + ys;
    assert forall d :: d in ys ==> d in xs + ys;
  }

  /** The grouping keys come in file order: they are the leading characters of
      the unknown lines, line by line. */
  lemma {:induction false} LeadersInLineOrder(tests: seq<LineStatus>)
    requires UnknownBodiesNonEmpty(tests)
    ensures UnknownLeaders(tests) == LineLeaders(tests)
  {
    if tests != [] {
      BodiesNonEmptyTail(tests);
      LeadersInLineOrder(tests[1..]);
      PayloadsCons(tests);
      UnknownPayloadBodies(tests);
      UnknownPayloadBodies(tests[1..]);
      var head := if tests[0].Passed? && tests[0].packet.data.Unknown? then [tests[0].packet.data] else [];
      FirstCharactersAppend(head, UnknownPayloads(tests[1..]));
      if head != [] {
        assert tests[0].Passed? && tests[0].packet.data.Unknown?;
        assert |tests[0].packet.data.body| > 0;
      }
    }
  }

  /** A character is a grouping key exactly when some unknown body starts
      with it. */
  lemma LeadersAreLeadingCharacters(tests: seq<LineStatus>)
    requires UnknownBodiesNonEmpty(tests)
    ensures forall c :: c in UnknownLeaders(tests) <==>
      exists d :: d in UnknownPayloads(tests) && d.body[0] == c
  {
    var payloads := UnknownPayloads(tests);
    var keys := UnknownLeaders(tests);
    UnknownPayloadBodies(tests);
    forall c ensures c in keys <==> exists d :: d in payloads && d.body[0] == c {
      if c in keys {
        var j :| 0 <= j < |keys| && keys[j] == c;
        assert payloads[j] in payloads;
      }
      if exists d :: d in payloads && d.body[0] == c {
        var d :| d in payloads && d.body[0] == c;
        var j :| 0 <= j < |payloads| && payloads[j] == d;
        assert keys[j] == c;
      }
    }
  }

  /** `unidentifiedIdentifiers` with the payloads of the passed lines grouped,
      as the `unknown` count of line 18 selects them. */
  function IntendedUnidentifiedIdentifiers(tests: seq<LineStatus>): (r: seq<(char, nat)>)
    requires UnknownBodiesNonEmpty(tests)
    ensures EntriesCount(r, UnknownLeaders(tests)) && NonIncreasing(r)
  {
    GroupedByCountDescending(UnknownLeaders(tests));
    SortByCountDescending(GroupCounts(UnknownLeaders(tests)))
  }

  /** The intended report groups exactly the lines counted as `unknown`: one
      entry per distinct leading character, each counted at least once, counts
      summing to `unknown`, most frequent first, and entries of equal count in
      the order their character first leads a line of the file. */
  lemma IntendedGroupsCountUnknownLines(tests: seq<LineStatus>)
    requires UnknownBodiesNonEmpty(tests)
    ensures var r := IntendedUnidentifiedIdentifiers(tests);
      && DistinctKeys(r)
      && EntriesCount(r, UnknownLeaders(tests))
      && CoversKeys(r, UnknownLeaders(tests))
      && Total(r) == UnknownCount(tests)
      && NonIncreasing(r)
      && (forall c: nat :: WithCount(r, c) == WithCount(GroupCounts(LineLeaders(tests)), c))
  {
    GroupedByCountDescending(UnknownLeaders(tests));
    LeadersInLineOrder(tests);
  }

  /** The keys of the intended report are exactly the leading characters of
      the unknown bodies. */
  lemma IntendedKeysAreUnknownLeaders(tests: seq<LineStatus>)
    requires UnknownBodiesNonEmpty(tests)
    ensures forall c :: c in KeysOf(IntendedUnidentifiedIdentifiers(tests)) <==>
      exists d :: d in UnknownPayloads(tests) && d.body[0] == c
  {
    var keys := UnknownLeaders(tests);
    var r := IntendedUnidentifiedIdentifiers(tests);
    LeadersAreLeadingCharacters(tests);
    GroupedByCountDescending(keys);
    assert EntriesCount(r, keys) && CoversKeys(r, keys);
    forall c ensures c in KeysOf(r) <==> c in keys {
      if c in KeysOf(r) {
        var i :| 0 <= i < |r| && KeysOf(r)[i] == c;
        assert r[i].0 in keys;
      }
      if c in keys {
        var j :| 0 <= j < |keys| && keys[j] == c;
      }
    }
  }

  /** `topUnidentified` over the intended grouping: at most five entries,
      none with a smaller count than an entry left out. */
  function IntendedTopUnidentified(tests: seq<LineStatus>): (t: seq<(char, nat)>)
    requires UnknownBodiesNonEmpty(tests)
    ensures t <= IntendedUnidentifiedIdentifiers(tests)
    ensures |t| == if |IntendedUnidentifiedIdentifiers(tests)| < 5 then |IntendedUnidentifiedIdentifiers(tests)| else 5
    ensures forall i, j :: 0 <= i < |t| <= j < |IntendedUnidentifiedIdentifiers(tests)| ==>
      t[i].1 >= IntendedUnidentifiedIdentifiers(tests)[j].1
  {
    IntendedGroupsCountUnknownLines(tests);
    Top(IntendedUnidentifiedIdentifiers(tests), 5)
  }

  /** The top entries never account for more than the unknown lines. */
  lemma IntendedTopWithinUnknown(tests: seq<LineStatus>)
    requires UnknownBodiesNonEmpty(tests)
    ensures Total(IntendedTopUnidentified(tests)) <= UnknownCount(tests)
  {
    IntendedGroupsCountUnknownLines(tests);
    TotalOfPrefix(IntendedTopUnidentified(tests), IntendedUnidentifiedIdentifiers(tests));
  }

  /** With the intended grouping, one unknown line gives one entry. */
  lemma IntendedGroupingListsUnknownLine()
    ensures var tests := [Passed(AprsPacket(Unknown("}abc")))];
      UnknownBodiesNonEmpty(tests) && IntendedUnidentifiedIdentifiers(tests) == [('}', 1)]
  {
  }
}
