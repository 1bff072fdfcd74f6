// PID filtering by program selection: the cache built from the PSI tables, and what the filter does with it.
module ProgramSelection {
  import opened Bytes
  import opened Sequences
  import opened TransportStream
  import opened NullPackets

  const MAX_PROGRAMS: nat := 64
  const MAX_STREAMS: nat := 32
  const MAX_EMM_PIDS: nat := 16
  const NO_PID: nat := 0x1FFF

  datatype Program = Program(number: nat, pmtPid: nat, pcrPid: nat, streams: seq<nat>, version: Option<nat>)

  datatype Cache = Cache(patVersion: Option<nat>, programs: seq<Program>, catVersion: Option<nat>, emmPids: seq<nat>)

  // A peer's selection; an absent list differs from an empty one.
  datatype Selection = Selection(active: bool, requestedPrograms: Option<seq<nat>>, blockedPrograms: Option<seq<nat>>,
                                 requestedPids: Option<seq<nat>>, blockedPids: Option<seq<nat>>)

  // ---- reading a packet ----

  function Num(b: Byte): (n: nat)
    ensures n < 256
  {
    ByteOfByte(b);
    b as int
  }

  function Num12(hi: Byte, lo: Byte): nat { Num(hi) % 16 * 256 + Num(lo) }

  // Where the section that starts in this packet begins. A pointer that leaves the section header outside
  // the packet counts as no section.
  function SectionStart(p: TsPacket): (start: Option<nat>)
    ensures start.Some? ==> start.value + 3 <= 188
  {
    var control := Num(p[3]) / 16 % 4;
    var at := if control == 3 then 5 + Num(p[4]) else 4;
    if Num(p[1]) / 64 % 2 == 0 || control == 2 || at >= 188 then None
    else
      var start := at + Num(p[at]) + 1;
      if start + 3 > 188 then None else Some(start)
  }

  // The section of this table that lies whole inside the packet and is in force.
  function Section(p: TsPacket, tableId: nat, least: nat): (s: Option<seq<Byte>>)
    requires least >= 9
    ensures s.Some? ==> least + 3 <= |s.value| <= 183
  {
    var start := SectionStart(p);
    if start.None? then None
    else
      var len := Num12(p[start.value + 1], p[start.value + 2]);
      if Num(p[start.value]) != tableId || len < least || start.value + 3 + len > 188 then None
      else
        StartPastHeader(p);
        var s: seq<Byte> := p[start.value..start.value + 3 + len];
        if Num(s[5]) % 2 == 0 then None else Some(s)
  }

  lemma StartPastHeader(p: TsPacket)
    ensures SectionStart(p).Some? ==> SectionStart(p).value >= 5
  {
  }

  function Version(s: seq<Byte>): nat
    requires |s| > 5
  {
    Num(s[5]) / 2 % 32
  }

  // ---- the tables ----

  // The programs listed from byte i of the data on, at most cap of them; number zero is the network table.
  function PatPrograms(s: seq<Byte>, i: nat, cap: nat): (ps: seq<Program>)
    requires |s| >= 12
    ensures |ps| <= cap
    decreases |s| - i
  {
    if i >= |s| - 12 || cap == 0 then []
    else
      var number := Num(s[8 + i]) * 256 + Num(s[9 + i]);
      if number == 0 then PatPrograms(s, i + 4, cap)
      else [Program(number, Int13(s[10 + i], s[11 + i]), NO_PID, [], None)] + PatPrograms(s, i + 4, cap - 1)
  }

  // The PIDs of the conditional-access descriptors from byte i of the data on, at most cap of them.
  function EmmPids(s: seq<Byte>, i: nat, cap: nat): (pids: seq<nat>)
    requires |s| >= 12
    ensures |pids| <= cap
    decreases |s| - i
  {
    if i >= |s| - 12 || cap == 0 then []
    else
      var len := Num(s[9 + i]);
      if i + 2 + len > |s| - 12 then []
      else if Num(s[8 + i]) == 9 && len >= 4 then
        [Int13(s[12 + i], s[13 + i])] + EmmPids(s, i + 2 + len, cap - 1)
      else EmmPids(s, i + 2 + len, cap)
  }

  // The stream PIDs from byte pos of the section up to end, at most cap of them.
  function StreamPids(s: seq<Byte>, pos: nat, end: nat, cap: nat): (pids: seq<nat>)
    requires end <= |s|
    ensures |pids| <= cap
    decreases end - pos
  {
    if pos + 5 > end || cap == 0 then []
    else
      [Int13(s[pos + 1], s[pos + 2])] + StreamPids(s, pos + 5 + Num12(s[pos + 3], s[pos + 4]), end, cap - 1)
  }

  function ParsePat(c: Cache, p: TsPacket): Cache {
    var s := Section(p, 0, 9);
    if s.None? || c.patVersion == Some(Version(s.value)) then c
    else c.(patVersion := Some(Version(s.value)), programs := PatPrograms(s.value, 0, MAX_PROGRAMS))
  }

  function ParseCat(c: Cache, p: TsPacket): Cache {
    var s := Section(p, 1, 9);
    if s.None? || c.catVersion == Some(Version(s.value)) then c
    else c.(catVersion := Some(Version(s.value)), emmPids := EmmPids(s.value, 0, MAX_EMM_PIDS))
  }

  // The first program, from the i-th on, whose map is on this PID.
  function FindMap(programs: seq<Program>, pid: nat, i: nat): (k: nat)
    requires i <= |programs|
    ensures i <= k <= |programs|
    ensures k < |programs| ==> programs[k].pmtPid == pid
    ensures forall j :: i <= j < k ==> programs[j].pmtPid != pid
    decreases |programs| - i
  {
    if i == |programs| || programs[i].pmtPid == pid then i else FindMap(programs, pid, i + 1)
  }

  // The end of the stream loop is taken four bytes before the section's length, which is three bytes short.
  function Mapped(program: Program, s: seq<Byte>): Program
    requires |s| >= 16
  {
    program.(pcrPid := Int13(s[8], s[9]), version := Some(Version(s)),
             streams := StreamPids(s, 12 + Num12(s[10], s[11]), |s| - 7, MAX_STREAMS))
  }

  function ParsePmt(c: Cache, p: TsPacket, pid: nat): Cache {
    var s := Section(p, 2, 13);
    var k := FindMap(c.programs, pid, 0);
    if s.None? || k == |c.programs| then c
    else
      var program := c.programs[k];
      if program.number != Num(s.value[3]) * 256 + Num(s.value[4]) || program.version == Some(Version(s.value)) then c
      else c.(programs := c.programs[k := Mapped(program, s.value)])
  }

  predicate IsPmtPid(c: Cache, pid: nat) { FindMap(c.programs, pid, 0) < |c.programs| }

  function ParsePsi(c: Cache, p: TsPacket): Cache {
    var pid := Pid(p);
    if pid == 0 then ParsePat(c, p)
    else if pid == 1 then ParseCat(c, p)
    else if IsPmtPid(c, pid) then ParsePmt(c, p, pid)
    else c
  }

  // ---- the rule ----

  // The first program with this number decides.
  predicate Belongs(programs: seq<Program>, pid: nat, number: nat) {
    programs != [] &&
    if programs[0].number == number then
      (programs[0].pcrPid == pid && pid != NO_PID) || pid in programs[0].streams
    else Belongs(programs[1..], pid, number)
  }

  predicate BelongsToAny(programs: seq<Program>, pid: nat, numbers: seq<nat>) {
    exists n :: n in numbers && Belongs(programs, pid, n)
  }

  predicate Mandatory(c: Cache, pid: nat) { pid <= 0x1F || IsPmtPid(c, pid) || pid in c.emmPids }

  // Requested PIDs come before blocked PIDs, those before requested programs, those before blocked programs;
  // what no list mentions is kept unless something was requested.
  predicate Included(c: Cache, pid: nat, s: Selection) {
    || !s.active || Mandatory(c, pid) || (s.requestedPids.Some? && pid in s.requestedPids.value)
    || (&& !(s.blockedPids.Some? && pid in s.blockedPids.value)
        && if s.requestedPrograms.Some? then BelongsToAny(c.programs, pid, s.requestedPrograms.value)
           else
             && !(s.blockedPrograms.Some? && BelongsToAny(c.programs, pid, s.blockedPrograms.value))
             && s.requestedPids.None?)
  }

  // ---- the filter ----

  function FilterPacket(c: Cache, p: TsPacket, s: Selection): (r: (Cache, TsPacket)) {
    if !HasSync(p) then (c, p)
    else
      var c' := ParsePsi(c, p);
      (c', if Included(c', Pid(p), s) then p else NullPacket(188))
  }

  function FilterPackets(c: Cache, ps: seq<TsPacket>, s: Selection): (r: (Cache, seq<TsPacket>))
    decreases |ps|
  {
    hide FilterPacket;
    if ps == [] then (c, [])
    else
      var (c', p) := FilterPacket(c, ps[0], s);
      var (c'', rest) := FilterPackets(c', ps[1..], s);
      (c'', [p] + rest)
  }

  // Only a nonempty run of packets that starts with a sync byte is looked at.
  predicate Filterable(data: seq<Byte>, s: Selection) {
    data != [] && |data| % 188 == 0 && data[0] == 0x47 && s.active
  }

  function Filter(c: Cache, data: seq<Byte>, s: Selection): (r: (Cache, seq<Byte>)) {
    if !Filterable(data, s) then (c, data)
    else
      var (c', ps) := FilterPackets(c, Packets(data), s);
      (c', Flatten(ps))
  }

  // ---- a fold over the packets ----

  lemma {:induction false} FilterPacketsConcat(c: Cache, a: seq<TsPacket>, b: seq<TsPacket>, s: Selection)
    ensures var (c', x) := FilterPackets(c, a, s);
      var (c'', y) := FilterPackets(c', b, s);
      FilterPackets(c, a + b, s) == (c'', x + y)
    decreases |a|
  {
    hide FilterPacket;
    if a == [] {
      assert a + b == b;
      assert [] + FilterPackets(c, b, s).1 == FilterPackets(c, b, s).1;
    } else {
      assert (a + b)[0] == a[0] && (a + b)[1..] == a[1..] + b;
      var (next, p) := FilterPacket(c, a[0], s);
      FilterPacketsConcat(next, a[1..], b, s);
      var (c', x) := FilterPackets(next, a[1..], s);
      var y := FilterPackets(c', b, s).1;
      assert [p] + (x + y) == ([p] + x) + y;
    }
  }

  // Filtering two aligned chunks in turn, the cache carried over, is filtering their concatenation.
  lemma FilterConcat(c: Cache, a: seq<Byte>, b: seq<Byte>, s: Selection)
    requires Filterable(a, s) && Filterable(b, s)
    ensures var (c', x) := Filter(c, a, s);
      var (c'', y) := Filter(c', b, s);
      Filter(c, a + b, s) == (c'', x + y)
  {
    hide FilterPackets, Packets, Flatten;
    PacketsConcat(a, b, |a| / 188);
    FilterPacketsConcat(c, Packets(a), Packets(b), s);
    var (c', x) := FilterPackets(c, Packets(a), s);
    var (c'', y) := FilterPackets(c', Packets(b), s);
    FlattenConcat(x, y);
  }

  // The cache when the i-th packet's turn comes.
  function CacheBefore(c: Cache, ps: seq<TsPacket>, i: nat): Cache
    requires i <= |ps|
  {
    if i == 0 then c else FilterNone(CacheBefore(c, ps, i - 1), ps[i - 1])
  }

  function FilterNone(c: Cache, p: TsPacket): Cache { if HasSync(p) then ParsePsi(c, p) else c }

  lemma {:induction false} CacheBeforeTail(c: Cache, ps: seq<TsPacket>, i: nat)
    requires 0 < i <= |ps|
    ensures CacheBefore(c, ps, i) == CacheBefore(FilterNone(c, ps[0]), ps[1..], i - 1)
  {
    hide FilterNone;
    if i > 1 { CacheBeforeTail(c, ps, i - 1); }
  }

  // Each packet is left alone or becomes the standard null packet, exactly by the rule, with the cache as it
  // stands once the packet itself has been read.
  lemma {:induction false} EachPacketByRule(c: Cache, ps: seq<TsPacket>, s: Selection, i: nat)
    requires i < |ps|
    ensures var out := FilterPackets(c, ps, s).1;
      |out| == |ps| &&
      out[i] ==
        if !HasSync(ps[i]) || Included(CacheBefore(c, ps, i + 1), Pid(ps[i]), s) then ps[i] else NullPacket(188)
    decreases |ps|
  {
    hide ParsePsi, Included, Pid, HasSync, NullPacket;
    FilterPacketsLength(c, ps, s);
    CacheBeforeTail(c, ps, i + 1);
    if i > 0 {
      EachPacketByRule(FilterNone(c, ps[0]), ps[1..], s, i - 1);
    }
  }

  lemma {:induction false} FilterPacketsLength(c: Cache, ps: seq<TsPacket>, s: Selection)
    ensures |FilterPackets(c, ps, s).1| == |ps|
    decreases |ps|
  {
    hide FilterPacket;
    if ps != [] { FilterPacketsLength(FilterPacket(c, ps[0], s).0, ps[1..], s); }
  }

  // Reading a program map leaves the set of map PIDs as it is.
  lemma MapPidsStay(c: Cache, p: TsPacket, pid: nat, other: nat)
    ensures IsPmtPid(ParsePmt(c, p, pid), other) <==> IsPmtPid(c, other)
  {
    var c' := ParsePmt(c, p, pid);
    forall k | 0 <= k < |c.programs|
      ensures c'.programs[k].pmtPid == c.programs[k].pmtPid
    {
    }
  }

  // The tables themselves always pass: a packet below PID 0x20, on a known program-map PID or on a known
  // entitlement PID is never altered.
  lemma MandatoryUntouched(c: Cache, p: TsPacket, s: Selection)
    requires Pid(p) <= 0x1F || IsPmtPid(c, Pid(p)) || Pid(p) in c.emmPids
    ensures FilterPacket(c, p, s).1 == p
  {
    hide Pid, Num, Section, ParsePat, ParseCat;
    MapPidsStay(c, p, Pid(p), Pid(p));
  }

  // ---- the limits ----

  // A single packet cannot list enough programs to reach the limit of 64.
  lemma {:induction false} ProgramLimitNeverReached(s: seq<Byte>, i: nat, cap: nat, more: nat)
    requires 12 <= |s| <= 183 && i <= |s| && cap <= more
    requires 4 * cap >= |s| - 12 - i
    ensures PatPrograms(s, i, cap) == PatPrograms(s, i, more)
    decreases |s| - i
  {
    hide Num, Int13;
    if i < |s| - 12 && cap > 0 {
      var number := Num(s[8 + i]) * 256 + Num(s[9 + i]);
      if i + 4 <= |s| {
        var used := if number == 0 then 0 else 1;
        ProgramLimitNeverReached(s, i + 4, cap - used, more - used);
      }
    }
  }

  // Nor enough streams to reach the limit of 32.
  lemma {:induction false} StreamLimitNeverReached(s: seq<Byte>, pos: nat, end: nat, cap: nat, more: nat)
    requires end <= |s| && cap <= more
    requires 5 * cap + 5 > end - pos
    ensures StreamPids(s, pos, end, cap) == StreamPids(s, pos, end, more)
    decreases end - pos
  {
    hide Num12, Int13;
    if pos + 5 <= end && cap > 0 {
      StreamLimitNeverReached(s, pos + 5 + Num12(s[pos + 3], s[pos + 4]), end, cap - 1, more - 1);
    }
  }

  // Entitlement PIDs can be cut off: the first sixteen are kept.
  lemma {:induction false} EmmLimitKeepsFirst(s: seq<Byte>, i: nat, cap: nat, more: nat)
    requires |s| >= 12 && cap <= more
    ensures cap <= |EmmPids(s, i, more)| ==> EmmPids(s, i, cap) == EmmPids(s, i, more)[..cap]
    ensures cap > |EmmPids(s, i, more)| ==> EmmPids(s, i, cap) == EmmPids(s, i, more)
    decreases |s| - i
  {
    hide Num, Int13;
    if i < |s| - 12 && cap > 0 {
      var len := Num(s[9 + i]);
      if i + 2 + len <= |s| - 12 {
        var found := Num(s[8 + i]) == 9 && len >= 4;
        EmmLimitKeepsFirst(s, i + 2 + len, if found then cap - 1 else cap, if found then more - 1 else more);
      }
    }
  }

  // ---- what the stream loop misses ----

  datatype Stream = Stream(pid: nat, infoLength: nat)

  // The stream entries fill the section exactly from pos to end.
  predicate StreamLoop(s: seq<Byte>, pos: nat, end: nat)
    requires end <= |s|
    decreases end - pos
  {
    pos == end || (pos + 5 <= end && StreamLoop(s, pos + 5 + Num12(s[pos + 3], s[pos + 4]), end))
  }

  function Streams(s: seq<Byte>, pos: nat, end: nat): seq<Stream>
    requires end <= |s| && StreamLoop(s, pos, end)
    decreases end - pos
  {
    if pos == end then []
    else
      var info := Num12(s[pos + 3], s[pos + 4]);
      [Stream(Int13(s[pos + 1], s[pos + 2]), info)] + Streams(s, pos + 5 + info, end)
  }

  function StreamPidsOf(streams: seq<Stream>): (pids: seq<nat>)
    ensures |pids| == |streams|
  {
    seq(|streams|, i requires 0 <= i < |streams| => streams[i].pid)
  }

  // Of the streams that fill the section up to its check sum, the loop finds all but the last, and the last
  // one exactly when it has at least three bytes of descriptors.
  lemma {:induction false} ShortLastStreamMissed(s: seq<Byte>, pos: nat, end: nat, cap: nat)
    requires 3 <= end <= |s| && StreamLoop(s, pos, end) && cap >= |Streams(s, pos, end)|
    ensures var all := Streams(s, pos, end);
      StreamPids(s, pos, end - 3, cap) ==
        StreamPidsOf(if all != [] && all[|all| - 1].infoLength < 3 then all[..|all| - 1] else all)
    decreases end - pos
  {
    hide Num12, Int13, StreamPidsOf;
    LastOfCons(Stream(0, 0), []);
    if pos < end {
      var info, pid := Num12(s[pos + 3], s[pos + 4]), Int13(s[pos + 1], s[pos + 2]);
      var next := pos + 5 + info;
      var rest := Streams(s, next, end);
      var all := Streams(s, pos, end);
      ShortLastStreamMissed(s, next, end, cap - 1);
      LastOfCons(Stream(pid, info), rest);
      if rest == [] {
        assert next == end;
        assert StreamPids(s, next, end - 3, cap - 1) == [];
      } else {
        assert pos + 5 <= end - 3;
      }
    }
  }

  lemma {:induction false} StreamsBound(s: seq<Byte>, pos: nat, end: nat)
    requires end <= |s| && StreamLoop(s, pos, end)
    ensures 5 * |Streams(s, pos, end)| <= end - pos
    decreases end - pos
  {
    hide Num12, Int13;
    if pos < end { StreamsBound(s, pos + 5 + Num12(s[pos + 3], s[pos + 4]), end); }
  }

  // A program map whose streams fill the section is read in full if and only if it lists no stream or its
  // last one carries at least three bytes of descriptors; neither the limit of 32 nor anything else cuts it.
  lemma MapReadInFull(program: Program, s: seq<Byte>)
    requires 16 <= |s| <= 183 && StreamLoop(s, 12 + Num12(s[10], s[11]), |s| - 4)
    ensures var all := Streams(s, 12 + Num12(s[10], s[11]), |s| - 4);
      Mapped(program, s).streams == StreamPidsOf(all) <==> all == [] || all[|all| - 1].infoLength >= 3
  {
    hide Num12, Int13, StreamPids, Streams, StreamLoop;
    var pos, end := 12 + Num12(s[10], s[11]), |s| - 4;
    var all := Streams(s, pos, end);
    StreamsBound(s, pos, end);
    StreamLimitNeverReached(s, pos, end - 3, MAX_STREAMS, 40);
    ShortLastStreamMissed(s, pos, end, 40);
  }

  // The map of program 1: clock on PID 0x102, and one stream on PID 0x101 without descriptors.
  const LONE_STREAM: seq<Byte> :=
    [2, 0xB0, 18, 0, 1, 0xC1, 0, 0, 0xE1, 2, 0xF0, 0, 0x1B, 0xE1, 1, 0xF0, 0, 0, 0, 0, 0]

  // The same map in a packet on PID 0x100.
  function LoneStreamPacket(): TsPacket {
    [0x47, 0x41, 0, 0x10, 0] + LONE_STREAM + seq(162, i => 0xFF)
  }

  lemma LoneStreamBytes()
    ensures var p := LoneStreamPacket();
      p[1] == 0x41 && p[2] == 0 && p[3] == 0x10 && p[4] == 0 && p[5..26] == LONE_STREAM
  {
    assert LoneStreamPacket()[5..26] == LONE_STREAM;
  }

  lemma LoneStreamNumbers()
    ensures Num(0) == 0 && Num(1) == 1 && Num(2) == 2 && Num(18) == 18 && Num(0x10) == 16 && Num(0x41) == 65
    ensures Num(0xB0) == 176 && Num(0xC1) == 193 && Num(0xE1) == 225 && Num(0xF0) == 240
  {
  }

  lemma LoneStreamSection()
    ensures Section(LoneStreamPacket(), 2, 13) == Some(LONE_STREAM) && Pid(LoneStreamPacket()) == 0x100
  {
    LoneStreamBytes();
    LoneStreamNumbers();
    hide Num, LoneStreamPacket;
    var p := LoneStreamPacket();
    assert p[5] == p[5..26][0] && p[6] == p[5..26][1] && p[7] == p[5..26][2];
    assert SectionStart(p) == Some(5);
  }

  lemma LoneStreamListed()
    ensures StreamLoop(LONE_STREAM, 12, 17) && Streams(LONE_STREAM, 12, 17) == [Stream(0x101, 0)]
    ensures Version(LONE_STREAM) == 0
    ensures forall p :: Mapped(p, LONE_STREAM) == p.(pcrPid := 0x102, version := Some(0), streams := [])
  {
    LoneStreamNumbers();
    hide Num;
  }

  // Its stream is lost, and then dropped although its program is the one requested.
  lemma LoneStreamLost()
    ensures var c := ParsePsi(Cache(None, [Program(1, 0x100, NO_PID, [], None)], None, []), LoneStreamPacket());
      c.programs == [Program(1, 0x100, 0x102, [], Some(0))]
      && !Included(c, 0x101, Selection(true, Some([1]), None, None, None))
  {
    LoneStreamSection();
    LoneStreamListed();
    LoneStreamNumbers();
    hide Section, Pid, Mapped, Version, Num;
    var before := Cache(None, [Program(1, 0x100, NO_PID, [], None)], None, []);
    var c := ParsePsi(before, LoneStreamPacket());
    assert c.programs == [Mapped(before.programs[0], LONE_STREAM)];
  }

  lemma LastOfCons(first: Stream, rest: seq<Stream>)
    ensures var all := [first] + rest;
      && (rest == [] ==> StreamPidsOf(all) == [first.pid] && all[..|all| - 1] == [])
      && (rest != [] ==> all[|all| - 1] == rest[|rest| - 1])
      && (rest != [] ==> StreamPidsOf(all[..|all| - 1]) == [first.pid] + StreamPidsOf(rest[..|rest| - 1]))
      && StreamPidsOf(all) == [first.pid] + StreamPidsOf(rest) && StreamPidsOf([]) == []
  {
  }

  // ---- filtering, then compressing, then expanding ----

  // Every null packet, as the compressor sees it, is the standard one.
  ghost predicate NullsAreStandard(ps: seq<seq<Byte>>)
    requires forall k :: 0 <= k < |ps| ==> |ps[k]| == 188
  {
    forall k :: 0 <= k < |ps| && IsNullPacket(ps[k]) ==> ps[k] == NullPacket(188)
  }

  lemma {:induction false} FilterKeepsStandard(c: Cache, ps: seq<TsPacket>, s: Selection)
    requires NullsAreStandard(ps)
    ensures NullsAreStandard(FilterPackets(c, ps, s).1)
    ensures ps != [] ==> FilterPackets(c, ps, s).1 != [] && FilterPackets(c, ps, s).1[0][0] == ps[0][0]
    decreases |ps|
  {
    hide ParsePsi, Included, Pid, IsNullPacket;
    if ps != [] {
      FilterKeepsStandard(FilterPacket(c, ps[0], s).0, ps[1..], s);
    }
  }

  lemma {:induction false} StandardIsFixed(ps: seq<seq<Byte>>)
    requires (forall k :: 0 <= k < |ps| ==> |ps[k]| == 188) && NullsAreStandard(ps)
    ensures Standardised(ps, 188) == Join(ps)
  {
    hide IsNullPacket, NullPacket;
    if ps != [] { StandardIsFixed(ps[1..]); }
  }

  // The receiver of a filtered and compressed payload of one to seven packets gets the filtered payload.
  lemma FilterSuppressExpand(c: Cache, data: seq<Byte>, s: Selection)
    requires data != [] && data[0] == 0x47 && |data| % 188 == 0 && |data| / 188 <= 7 && NullsAreStandard(Packets(data))
    ensures var filtered := Filter(c, data, s).1;
      Readable(Send(filtered)) && Receive(Send(filtered)) == filtered
  {
    hide FilterPackets, Flatten, Split, Join, Standardised, Send, Receive, NullsAreStandard;
    var filtered := Filter(c, data, s).1;
    FilteredIsStandard(c, data, s);
    SuppressThenExpand(filtered);
    JoinOfSplit(filtered, 188);
    StandardIsFixed(Packets(filtered));
  }

  lemma FilteredIsStandard(c: Cache, data: seq<Byte>, s: Selection)
    requires data != [] && data[0] == 0x47 && |data| % 188 == 0 && NullsAreStandard(Packets(data))
    ensures var filtered := Filter(c, data, s).1;
      |filtered| == |data| && filtered[0] == 0x47 && NullsAreStandard(Packets(filtered))
  {
    hide Packets, Flatten, FilterPackets, NullsAreStandard;
    if Filterable(data, s) {
      var ps := Packets(data);
      var out := FilterPackets(c, ps, s).1;
      FilterKeepsStandard(c, ps, s);
      FilterPacketsLength(c, ps, s);
      PacketsOfFlatten(out);
      PacketsAt(data, 0);
      PacketsAt(Flatten(out), 0);
    }
  }
}
