/** The gestation process registry of `SessionManager.py`: an in-memory map
    from an unordered pair of users to the one process that pair may have
    running, and the pure helpers that sit beside it (the pair key, the
    offspring-count draw and the place-value count display). */
module Sessions {
  import opened Wrappers
  import opened Text
  import opened Models

  // ---------------------------------------------------------------------------
  // The registry key
  // ---------------------------------------------------------------------------

  /** `(sorted_ids[0], sorted_ids[1])`. */
  datatype ProcessKey = ProcessKey(first: UserId, second: UserId)

  /** The key of the pair {user1, user2}: its two ids in `sorted` order. */
  function KeyOf(user1: UserId, user2: UserId): (k: ProcessKey)
    ensures LexLe(k.first, k.second)
  {
    LexLeTotal(user1, user2);
    if LexLe(user1, user2) then ProcessKey(user1, user2) else ProcessKey(user2, user1)
  }

  /** The key holds the same two ids as the pair. */
  lemma KeyOfSameIds(user1: UserId, user2: UserId)
    ensures multiset{KeyOf(user1, user2).first, KeyOf(user1, user2).second} == multiset{user1, user2}
  {
    if !LexLe(user1, user2) {
      assert multiset{user2, user1} == multiset{user1, user2};
    }
  }

  /** The key does not depend on the order the two users are given in. */
  lemma KeyOfSymmetric(user1: UserId, user2: UserId)
    ensures KeyOf(user1, user2) == KeyOf(user2, user1)
  {
    if LexLe(user1, user2) && LexLe(user2, user1) {
      LexLeAntisymmetric(user1, user2);
    }
  }

  /** Two pairs share a key exactly when they are the same unordered pair. */
  lemma KeyOfSamePair(a: UserId, b: UserId, c: UserId, d: UserId)
    ensures KeyOf(a, b) == KeyOf(c, d) <==> multiset{a, b} == multiset{c, d}
  {
    var k, k' := KeyOf(a, b), KeyOf(c, d);
    if multiset{a, b} == multiset{c, d} {
      if a == c {
        assert multiset{a, b} - multiset{a} == multiset{b};
        assert multiset{c, d} - multiset{c} == multiset{d};
        assert b == d;
      } else {
        assert a in multiset{c, d};
        assert a == d;
        assert multiset{a, b} - multiset{a} == multiset{b};
        assert multiset{c, d} - multiset{d} == multiset{c};
        assert b == c;
        KeyOfSymmetric(a, b);
      }
    }
  }

  // ---------------------------------------------------------------------------
  // The registry
  // ---------------------------------------------------------------------------

  /** One running gestation: who asked (in the order given), where, when it
      started and how long it lasts, in seconds. The bot handle and the
      completion callback the source also stores are not modelled. */
  datatype Process = Process(user1: UserId, user2: UserId, groupId: string, startTime: int, duration: int)

  /** Every process is filed under the key of its own pair: the registry then
      holds at most one process per unordered pair. */
  ghost predicate Keyed(processes: map<ProcessKey, Process>)
  {
    forall k :: k in processes ==> k == KeyOf(processes[k].user1, processes[k].user2)
  }

  /** At most one process per unordered pair: two entries of a keyed registry
      for the same pair of users are the same entry. */
  lemma AtMostOnePerPair(processes: map<ProcessKey, Process>, k1: ProcessKey, k2: ProcessKey)
    requires Keyed(processes) && k1 in processes && k2 in processes
    requires multiset{processes[k1].user1, processes[k1].user2} == multiset{processes[k2].user1, processes[k2].user2}
    ensures k1 == k2
  {
    KeyOfSamePair(processes[k1].user1, processes[k1].user2, processes[k2].user1, processes[k2].user2);
  }

  /** Seconds left: the planned duration less the time elapsed, never below 0. */
  function Remaining(p: Process, now: int): (left: int)
    ensures left >= 0
    ensures left == 0 <==> now - p.startTime >= p.duration
    ensures left > 0 ==> (now - p.startTime) + left == p.duration
  {
    var left := p.duration - (now - p.startTime);
    if left > 0 then left else 0
  }

  /** The time left never goes up as the clock moves on, stays within the
      planned duration, and is exactly 0 from the planned end on. */
  lemma RemainingShrinks(p: Process, now: int, later: int)
    requires p.startTime <= now <= later && p.duration >= 0
    ensures 0 <= Remaining(p, later) <= Remaining(p, now) <= p.duration
    ensures Remaining(p, later) == 0 <==> later >= p.startTime + p.duration
  {
  }

  class BabyProcessManager {
    var processes: map<ProcessKey, Process>

    ghost predicate Valid()
      reads this
    {
      Keyed(processes)
    }

    constructor ()
      ensures Valid() && processes == map[]
    {
      processes := map[];
    }

    /** `start_baby_process`: false when the pair already has a process,
        otherwise files exactly one new process under the pair's key. */
    method StartBabyProcess(user1: UserId, user2: UserId, groupId: string, duration: int, now: int)
      returns (started: bool)
      requires Valid()
      modifies this
      ensures Valid()
      ensures started <==> KeyOf(user1, user2) !in old(processes)
      ensures started ==> processes == old(processes)[KeyOf(user1, user2) := Process(user1, user2, groupId, now, duration)]
      ensures !started ==> processes == old(processes)
    {
      var key := KeyOf(user1, user2);
      if key in processes {
        return false;
      }
      processes := processes[key := Process(user1, user2, groupId, now, duration)];
      started := true;
    }

    /** The registry half of `_complete_baby_process`: pop the pair's entry;
        a missing entry is a silent no-op. */
    method CompleteBabyProcess(user1: UserId, user2: UserId) returns (popped: Option<Process>)
      requires Valid()
      modifies this
      ensures Valid()
      ensures popped == if KeyOf(user1, user2) in old(processes) then Some(old(processes)[KeyOf(user1, user2)]) else None
      ensures processes == old(processes) - {KeyOf(user1, user2)}
    {
      var key := KeyOf(user1, user2);
      if key in processes {
        popped := Some(processes[key]);
      } else {
        popped := None;
      }
      processes := processes - {key};
    }

    /** `is_in_baby_process`: whether some process runs for the unordered
        pair {user1, user2}. */
    method IsInBabyProcess(user1: UserId, user2: UserId) returns (active: bool)
      requires Valid()
      ensures active <==> exists k :: k in processes && multiset{processes[k].user1, processes[k].user2} == multiset{user1, user2}
    {
      var key := KeyOf(user1, user2);
      active := key in processes;
      if active {
        assert multiset{processes[key].user1, processes[key].user2} == multiset{user1, user2};
      } else if exists k :: k in processes && multiset{processes[k].user1, processes[k].user2} == multiset{user1, user2} {
        var k :| k in processes && multiset{processes[k].user1, processes[k].user2} == multiset{user1, user2};
        KeyOfSamePair(processes[k].user1, processes[k].user2, user1, user2);
        assert false;
      }
    }

    /** `get_remaining_time`: 0 when the pair has no process, otherwise the
        process's time left, whichever order the pair is given in. */
    method GetRemainingTime(user1: UserId, user2: UserId, now: int) returns (remaining: int)
      requires Valid()
      ensures remaining >= 0
      ensures KeyOf(user1, user2) !in processes ==> remaining == 0
      ensures KeyOf(user1, user2) in processes ==>
                KeyOf(user2, user1) in processes && remaining == Remaining(processes[KeyOf(user2, user1)], now)
    {
      KeyOfSymmetric(user1, user2);
      var key := KeyOf(user1, user2);
      if key !in processes {
        return 0;
      }
      remaining := Remaining(processes[key], now);
    }

    /** `cleanup`: the registry ends empty (the scheduled jobs it also
        cancels are not modelled). */
    method Cleanup()
      requires Valid()
      modifies this
      ensures Valid() && processes == map[]
    {
      processes := map[];
    }
  }

  /** A start followed by a start for the same pair in the other order fails
      and leaves the registry as the first start left it. */
  method SwappedSecondStartFails(m: BabyProcessManager, a: UserId, b: UserId, group: string, d1: int, d2: int, now: int)
    returns (first: bool, second: bool)
    requires m.Valid()
    modifies m
    ensures m.Valid()
    ensures first <==> KeyOf(a, b) !in old(m.processes)
    ensures !second
    ensures m.processes == if first then old(m.processes)[KeyOf(a, b) := Process(a, b, group, now, d1)] else old(m.processes)
  {
    first := m.StartBabyProcess(a, b, group, d1, now);
    KeyOfSymmetric(a, b);
    second := m.StartBabyProcess(b, a, group, d2, now);
  }

  // ---------------------------------------------------------------------------
  // The offspring-count draw
  // ---------------------------------------------------------------------------

  /** `_realistic_baby_count`, with the uniform draw in [0, 1) given as
      `draw` = floor(1000 * probability); against the integer thresholds
      500, 800, 900 and 950 this decides exactly as the float comparisons. */
  function RealisticBabyCount(draw: int): (count: nat)
    ensures count <= 4
  {
    if draw < 500 then 0
    else if draw < 800 then 1
    else if draw < 900 then 2
    else if draw < 950 then 3
    else 4
  }

  /** A larger draw never gives fewer babies. */
  lemma BabyCountMonotone(d1: int, d2: int)
    requires d1 <= d2
    ensures RealisticBabyCount(d1) <= RealisticBabyCount(d2)
  {
  }

  /** The draws in [0, 1000) that give `count` babies form the band
      [BandLow(count), BandLow(count + 1)). */
  function BandLow(count: nat): int
    requires count <= 5
  {
    [0, 500, 800, 900, 950, 1000][count]
  }

  /** How many of the draws 0, 1, ..., hi - 1 give `count` babies. */
  function Tally(count: nat, hi: nat): nat
  {
    if hi == 0 then 0 else Tally(count, hi - 1) + (if RealisticBabyCount(hi - 1) == count then 1 else 0)
  }

  function Clamp(x: int, lo: int, hi: int): int
  {
    if x < lo then lo else if x > hi then hi else x
  }

  /** The draws in [0, 1000) that give `count` babies are exactly the band
      [BandLow(count), BandLow(count + 1)). */
  lemma BabyCountBand(draw: int, count: nat)
    requires 0 <= draw < 1000 && count <= 4
    ensures RealisticBabyCount(draw) == count <==> BandLow(count) <= draw < BandLow(count + 1)
  {
  }

  lemma {:induction false} TallyBand(count: nat, hi: nat)
    requires count <= 4 && hi <= 1000
    ensures Tally(count, hi) == Clamp(hi, BandLow(count), BandLow(count + 1)) - BandLow(count)
  {
    if hi > 0 {
      TallyBand(count, hi - 1);
      BabyCountBand(hi - 1, count);
    }
  }

  /** Out of the 1000 equally likely draws, 500 give no baby, 300 one, 100
      two, 50 three and 50 four. */
  lemma BabyCountFrequency(count: nat)
    requires count <= 4
    ensures Tally(count, 1000) == BandLow(count + 1) - BandLow(count)
  {
    TallyBand(count, 1000);
  }

  // ---------------------------------------------------------------------------
  // The count display
  // ---------------------------------------------------------------------------

  /** The four display levels: crowns (thousands), suns (hundreds), moons
      (tens) and stars (units). */
  datatype Level = Crown | Sun | Moon | Star

  /** One run of the display: a level's glyph followed by `x` and a count. */
  datatype Part = Part(level: Level, count: nat)

  function Weight(level: Level): nat
  {
    match level
    case Crown => 1000
    case Sun => 100
    case Moon => 10
    case Star => 1
  }

  /** The number of babies a run of parts stands for. */
  function Value(parts: seq<Part>): int
  {
    if parts == [] then 0 else Weight(parts[0].level) * parts[0].count + Value(parts[1..])
  }

  lemma {:induction false} ValueAppend(a: seq<Part>, b: seq<Part>)
    ensures Value(a + b) == Value(a) + Value(b)
  {
    if a != [] {
      ValueAppend(a[1..], b);
      assert (a + b)[0] == a[0] && (a + b)[1..] == a[1..] + b;
      calc {
        Value(a + b);
        Weight(a[0].level) * a[0].count + Value(a[1..] + b);
        Weight(a[0].level) * a[0].count + Value(a[1..]) + Value(b);
        Value(a) + Value(b);
      }
    } else {
      assert a + b == b;
    }
  }

  /** The parts for crowns c, suns s, moons m and stars t, zero counts left
      out; all four zero shows a single `x0` star part. */
  function Assemble(c: nat, s: nat, m: nat, t: nat): seq<Part>
  {
    var parts := (if c > 0 then [Part(Crown, c)] else [])
      + (if s > 0 then [Part(Sun, s)] else [])
      + (if m > 0 then [Part(Moon, m)] else [])
      + (if t > 0 then [Part(Star, t)] else []);
    if parts == [] then [Part(Star, 0)] else parts
  }

  /** The count `format_baby_count_symbols` shows for `level`. */
  function Digit(babyCount: nat, level: Level): nat
  {
    match level
    case Crown => babyCount / 1000
    case Sun => (babyCount % 1000) / 100
    case Moon => (babyCount % 100) / 10
    case Star => babyCount % 10
  }

  /** The levels a run of parts shows. */
  function Levels(parts: seq<Part>): set<Level>
  {
    if parts == [] then {} else {parts[0].level} + Levels(parts[1..])
  }

  lemma {:induction false} LevelsAppend(a: seq<Part>, b: seq<Part>)
    ensures Levels(a + b) == Levels(a) + Levels(b)
  {
    if a != [] {
      LevelsAppend(a[1..], b);
      assert (a + b)[0] == a[0] && (a + b)[1..] == a[1..] + b;
    } else {
      assert a + b == b;
    }
  }

  lemma AssembleLevels(c: nat, s: nat, m: nat, t: nat)
    ensures Levels(Assemble(c, s, m, t)) ==
      (if c > 0 then {Crown} else {}) + (if s > 0 then {Sun} else {}) + (if m > 0 then {Moon} else {})
      + (if t > 0 || (c == 0 && s == 0 && m == 0) then {Star} else {})
  {
    var pc := if c > 0 then [Part(Crown, c)] else [];
    var ps := if s > 0 then [Part(Sun, s)] else [];
    var pm := if m > 0 then [Part(Moon, m)] else [];
    var pt := if t > 0 then [Part(Star, t)] else [];
    LevelsAppend(pc, ps);
    LevelsAppend(pc + ps, pm);
    LevelsAppend(pc + ps + pm, pt);
  }

  /** `format_baby_count_symbols` before the glyphs are spelled out: each
      level's place value, a level shown exactly when its count is not 0,
      and 0 shown as the single units part `x0`. */
  function CountParts(babyCount: nat): (parts: seq<Part>)
    ensures forall i :: 0 <= i < |parts| ==> parts[i].count == Digit(babyCount, parts[i].level)
    ensures forall level :: level in Levels(parts) <==> Digit(babyCount, level) > 0 || (babyCount == 0 && level == Star)
    ensures babyCount == 0 ==> parts == [Part(Star, 0)]
  {
    AssembleLevels(Digit(babyCount, Crown), Digit(babyCount, Sun), Digit(babyCount, Moon), Digit(babyCount, Star));
    DigitsRecompose(babyCount);
    Assemble(Digit(babyCount, Crown), Digit(babyCount, Sun), Digit(babyCount, Moon), Digit(babyCount, Star))
  }

  /** Every level below the crown holds a single decimal digit. */
  lemma DigitsBelowCrown(babyCount: nat, level: Level)
    requires level != Crown
    ensures Digit(babyCount, level) < 10
  {
  }

  /** The parts add back up to the count they display:
      crowns*1000 + suns*100 + moons*10 + stars == babyCount. */
  lemma AssembleValue(c: nat, s: nat, m: nat, t: nat)
    ensures Value(Assemble(c, s, m, t)) == 1000 * c + 100 * s + 10 * m + t
  {
    var pc, ps, pm, pt := Single(Crown, c), Single(Sun, s), Single(Moon, m), Single(Star, t);
    ValueAppend(pc, ps);
    ValueAppend(pc + ps, pm);
    ValueAppend(pc + ps + pm, pt);
  }

  /** The part for `n` of `level`, or none when `n` is zero. */
  function Single(level: Level, n: nat): (parts: seq<Part>)
    ensures Value(parts) == Weight(level) * n
  {
    if n > 0 then [Part(level, n)] else []
  }

  /** The four digits put back together give the count. */
  lemma DigitsRecompose(n: nat)
    ensures 1000 * Digit(n, Crown) + 100 * Digit(n, Sun) + 10 * Digit(n, Moon) + Digit(n, Star) == n
  {
    var q, r := n / 1000, n % 1000;
    var s, r2 := r / 100, r % 100;
    var m, t := r2 / 10, r2 % 10;
    assert n == 1000 * q + r && r == 100 * s + r2 && r2 == 10 * m + t;
    QuotientRemainder(n, 100, 10 * q + s, r2);
    QuotientRemainder(n, 10, 100 * q + 10 * s + m, t);
  }

  lemma CountPartsValue(babyCount: nat)
    ensures Value(CountParts(babyCount)) == babyCount
  {
    AssembleValue(Digit(babyCount, Crown), Digit(babyCount, Sun), Digit(babyCount, Moon), Digit(babyCount, Star));
    DigitsRecompose(babyCount);
  }

  /** The display is canonical: any crowns, suns, moons and stars with the
      last three below 10 are exactly what the count they add up to displays. */
  lemma AssembleRoundTrip(c: nat, s: nat, m: nat, t: nat)
    requires s < 10 && m < 10 && t < 10
    ensures CountParts(1000 * c + 100 * s + 10 * m + t) == Assemble(c, s, m, t)
  {
    var n := 1000 * c + 100 * s + 10 * m + t;
    QuotientRemainder(n, 1000, c, 100 * s + 10 * m + t);
    QuotientRemainder(100 * s + 10 * m + t, 100, s, 10 * m + t);
    QuotientRemainder(n, 100, 10 * c + s, 10 * m + t);
    QuotientRemainder(10 * m + t, 10, m, t);
    QuotientRemainder(n, 10, 100 * c + 10 * s + m, t);
    assert Digit(n, Crown) == c && Digit(n, Sun) == s && Digit(n, Moon) == m && Digit(n, Star) == t;
  }

  /** Division by a decimal place value recovers quotient and remainder. */
  lemma QuotientRemainder(n: int, d: int, q: int, r: int)
    requires d == 10 || d == 100 || d == 1000
    requires 0 <= r < d && n == d * q + r
    ensures n / d == q && n % d == r
  {
    if d == 10 {
      assert n == 10 * q + r;
    } else if d == 100 {
      assert n == 100 * q + r;
    } else {
      assert n == 1000 * q + r;
    }
  }

  /** The glyph of each level: crown, sun (with its variation selector),
      crescent moon and glowing star. */
  function Glyph(level: Level): string
  {
    match level
    case Crown => "\U{1F451}"
    case Sun => "\U{2600}\U{FE0F}"
    case Moon => "\U{1F319}"
    case Star => "\U{1F31F}"
  }

  function Render(parts: seq<Part>): string
  {
    if parts == [] then "" else Glyph(parts[0].level) + "x" + DecimalString(parts[0].count) + Render(parts[1..])
  }

  /** `format_baby_count_symbols`. */
  function FormatBabyCountSymbols(babyCount: nat): string
  {
    Render(CountParts(babyCount))
  }

  /** No babies displays as a single zero-star run. */
  lemma FormatZero()
    ensures FormatBabyCountSymbols(0) == "\U{1F31F}x0"
  {
  }

  /** 12034 displays as twelve crowns, three moons and four stars, the zero
      hundreds left out. */
  lemma FormatTwelveThousandThirtyFour()
    ensures FormatBabyCountSymbols(12034) == "\U{1F451}x12\U{1F319}x3\U{1F31F}x4"
  {
    var parts := [Part(Crown, 12), Part(Moon, 3), Part(Star, 4)];
    assert CountParts(12034) == parts by {
      AssembleRoundTrip(12, 0, 3, 4);
    }
    assert Render(parts) == "\U{1F451}x12\U{1F319}x3\U{1F31F}x4" by {
      RenderParts(parts);
    }
  }

  lemma RenderParts(parts: seq<Part>)
    requires parts == [Part(Crown, 12), Part(Moon, 3), Part(Star, 4)]
    ensures Render(parts) == "\U{1F451}x12\U{1F319}x3\U{1F31F}x4"
  {
    assert Render(parts[2..]) == "\U{1F31F}x4" by {
      assert DecimalString(4) == "4";
    }
    assert Render(parts[1..]) == "\U{1F319}x3\U{1F31F}x4" by {
      assert DecimalString(3) == "3";
      assert parts[1..][1..] == parts[2..];
    }
    assert DecimalString(12) == "12";
  }

  /** ` 和 ` (and) and ` 的宝宝 ` (the babies of), as the display line spells them. */
  const And: string := " \U{548C} "
  const BabiesOf: string := " \U{7684}\U{5B9D}\U{5B9D} "

  /** `format_baby_display`: `[index. ]p1 和 p2 的宝宝 <count display> - date`. */
  function FormatBabyDisplay(parent1Name: string, parent2Name: string, babyCount: nat, date: string, index: Option<nat>): string
  {
    var line := parent1Name + And + parent2Name + BabiesOf + FormatBabyCountSymbols(babyCount) + " - " + date;
    match index
    case Some(i) => DecimalString(i) + ". " + line
    case None => line
  }

  /** The display line determines the count: for the same names, date and
      index, two different counts never display alike. */
  lemma DisplayDeterminesCount(parent1Name: string, parent2Name: string, c1: nat, c2: nat, date: string, index: Option<nat>)
    requires FormatBabyDisplay(parent1Name, parent2Name, c1, date, index) == FormatBabyDisplay(parent1Name, parent2Name, c2, date, index)
    ensures c1 == c2
  {
    var number := match index case Some(i) => DecimalString(i) + ". " case None => "";
    var head := parent1Name + And + parent2Name + BabiesOf;
    var f1, f2 := FormatBabyCountSymbols(c1), FormatBabyCountSymbols(c2);
    if index.None? {
      assert number + (((head + f1) + " - ") + date) == FormatBabyDisplay(parent1Name, parent2Name, c1, date, index);
      assert number + (((head + f2) + " - ") + date) == FormatBabyDisplay(parent1Name, parent2Name, c2, date, index);
    }
    CancelMiddle(number, head, f1, f2, " - ", date);
    FormatInjective(c1, c2);
  }

  /** Text between a fixed front and a fixed back is determined by the whole. */
  lemma CancelMiddle(pre: string, head: string, f1: string, f2: string, sep: string, tail: string)
    requires pre + (((head + f1) + sep) + tail) == pre + (((head + f2) + sep) + tail)
    ensures f1 == f2
  {
    var x1, x2 := ((head + f1) + sep) + tail, ((head + f2) + sep) + tail;
    assert x1 == (pre + x1)[|pre|..] && x2 == (pre + x2)[|pre|..];
    assert |f1| == |f2|;
    assert f1 == x1[|head|..|head| + |f1|];
    assert f2 == x2[|head|..|head| + |f2|];
  }

  /** Different counts have different symbol displays. */
  lemma FormatInjective(c1: nat, c2: nat)
    requires FormatBabyCountSymbols(c1) == FormatBabyCountSymbols(c2)
    ensures c1 == c2
  {
    RenderInjective(CountParts(c1), CountParts(c2));
    CountPartsValue(c1);
    CountPartsValue(c2);
  }

  /** The rendering can be read back: equal text means equal parts. */
  lemma {:induction false} RenderInjective(a: seq<Part>, b: seq<Part>)
    requires Render(a) == Render(b)
    ensures a == b
  {
    RenderEmpty(a);
    RenderEmpty(b);
    if a != [] {
      RenderStep(a, b);
      RenderInjective(a[1..], b[1..]);
      assert a == [a[0]] + a[1..] && b == [b[0]] + b[1..];
    }
  }

  /** Equal renderings open with the same part. */
  lemma RenderStep(a: seq<Part>, b: seq<Part>)
    requires a != [] && b != [] && Render(a) == Render(b)
    ensures a[0] == b[0] && Render(a[1..]) == Render(b[1..])
  {
    var rest1 := RenderHead(a);
    var rest2 := RenderHead(b);
    GlyphHead(a[0].level, b[0].level);
    RenderStart(a[1..]);
    RenderStart(b[1..]);
    DigitsPrefix(DecimalString(a[0].count), Render(a[1..]), DecimalString(b[0].count), Render(b[1..]));
    DecimalStringInjective(a[0].count, b[0].count);
  }

  /** A non-empty rendering is its first glyph, `x`, and what follows it. */
  lemma RenderHead(a: seq<Part>) returns (rest: string)
    requires a != []
    ensures |Glyph(a[0].level)| >= 1 && Render(a)[0] == Glyph(a[0].level)[0]
    ensures rest == DecimalString(a[0].count) + Render(a[1..])
    ensures |Render(a)| > |Glyph(a[0].level)| && Render(a)[|Glyph(a[0].level)| + 1..] == rest
  {
    var g := Glyph(a[0].level);
    rest := DecimalString(a[0].count) + Render(a[1..]);
    assert Render(a) == g + "x" + DecimalString(a[0].count) + Render(a[1..]);
    assert Render(a) == (g + "x") + rest;
    assert |g + "x"| == |g| + 1;
  }

  lemma RenderEmpty(a: seq<Part>)
    ensures Render(a) == [] <==> a == []
  {
    if a != [] {
      assert |Glyph(a[0].level)| >= 1;
    }
  }

  /** A rendering opens with a glyph, never with a digit. */
  lemma RenderStart(a: seq<Part>)
    ensures Render(a) == [] || !('0' <= Render(a)[0] <= '9')
  {
    if a != [] {
      var _ := RenderHead(a);
    }
  }

  /** The first character of a glyph names its level. */
  lemma GlyphHead(l1: Level, l2: Level)
    requires |Glyph(l1)| >= 1 && |Glyph(l2)| >= 1 && Glyph(l1)[0] == Glyph(l2)[0]
    ensures l1 == l2
  {
  }

  /** Digits followed by text that does not open with a digit split there. */
  lemma DigitsPrefix(d1: string, x1: string, d2: string, x2: string)
    requires IsDigits(d1) && IsDigits(d2) && d1 + x1 == d2 + x2
    requires x1 == [] || !('0' <= x1[0] <= '9')
    requires x2 == [] || !('0' <= x2[0] <= '9')
    ensures d1 == d2 && x1 == x2
  {
    ConcatAt(d1, x1, |d2|);
    ConcatAt(d2, x2, |d1|);
    assert |d1| == |d2|;
    assert d1 == (d1 + x1)[..|d1|] && d2 == (d2 + x2)[..|d2|];
    assert x1 == (d1 + x1)[|d1|..] && x2 == (d2 + x2)[|d2|..];
  }

  lemma ConcatAt(a: string, b: string, i: int)
    ensures |a + b| == |a| + |b|
    ensures 0 <= i < |a| ==> (a + b)[i] == a[i]
    ensures |a| <= i < |a| + |b| ==> (a + b)[i] == b[i - |a|]
  {
  }
}
