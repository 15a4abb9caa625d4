/** Order nonces: the atomic upsert of internal/persistence/store.go shared by any number of processes, and
    the in-process counter of cmd/worker/main.go. */
module Nonces {
  import opened FixedWidth
  import opened Sequences
  import opened Text

  // ----- the row -----

  /** A text that matches '^-?[0-9]+$', read as an integer. */
  function Numeric(text: string): Option<int> {
    if |text| > 0 && text[0] == '-' then
      if |text| > 1 && IsDigits(text[1..]) then Some(0 - DigitsValue(text[1..])) else None
    else if |text| > 0 && IsDigits(text) then Some(DigitsValue(text)) else None
  }

  lemma NumericOfDigits(digits: string)
    requires digits != "" && IsDigits(digits)
    ensures Numeric(digits) == Some(DigitsValue(digits))
    ensures Numeric("-" + digits) == Some(0 - DigitsValue(digits))
  {
    var negative := "-" + digits;
    assert negative[0] == '-' && negative[1..] == digits;
  }

  lemma NumericOfFormat(n: int)
    ensures Numeric(FormatInt(n)) == Some(n)
  {
    var size: nat := if n < 0 then -n else n;
    DigitsInvertible(size);
    NumericOfDigits(Digits(size));
  }

  /** Which texts are numeric, and what they stand for: an optional minus sign and at least one digit. */
  lemma NumericExactlyWhen(text: string, n: int)
    ensures Numeric(text) == Some(n) <==>
            exists sign, digits :: sign in {"", "-"} && digits != "" && IsDigits(digits) && text == sign + digits
                                   && n == if sign == "-" then 0 - DigitsValue(digits) else DigitsValue(digits)
  {
    if Numeric(text) == Some(n) {
      if text[0] == '-' {
        assert text == "-" + text[1..];
      } else {
        assert text == "" + text;
      }
    }
    if sign, digits :| sign in {"", "-"} && digits != "" && IsDigits(digits) && text == sign + digits
                       && n == if sign == "-" then 0 - DigitsValue(digits) else DigitsValue(digits) {
      if sign == "-" {
        assert text[1..] == digits;
      } else {
        assert text == digits;
      }
    }
  }

  datatype Upserted = Committed(row: string, nonce: int) | OutOfRange

  /** The statement computes seed + 1 whether or not it uses it; a numeric row is incremented, any other
      row is set to seed + 1, and the new value less one is returned. */
  function Upsert(row: Option<string>, seed: int): Upserted {
    if !Int64(seed + 1) then OutOfRange
    else
      var nonce := Upcoming(row, seed);
      if !Int64(nonce) || !Int64(nonce + 1) then OutOfRange else Committed(FormatInt(nonce + 1), nonce)
  }

  /** What a row hands out next, given the seed of the process that asks. */
  function Upcoming(row: Option<string>, seed: int): int {
    if row.Some? && Numeric(row.value).Some? then Numeric(row.value).value else seed
  }

  predicate IsNumeric(row: Option<string>) {
    row.Some? && Numeric(row.value).Some?
  }

  // ----- runs of any number of processes -----

  /** One call by some process, with that process's seed; the process may crash after the commit. */
  datatype Call = Call(key: string, seed: int, crashes: bool)

  datatype Allocation = Allocation(key: string, nonce: int, returned: bool)

  datatype Table = Table(rows: map<string, string>, log: seq<Allocation>)

  function Row(rows: map<string, string>, key: string): Option<string> {
    if key in rows then Some(rows[key]) else None
  }

  predicate Refused(c: Call) {
    |TrimSpace(c.key)| == 0 || c.seed < 0
  }

  function Allocate(t: Table, key: string, seed: int, crashes: bool): Table {
    match Upsert(Row(t.rows, key), seed)
    case OutOfRange => t
    case Committed(row, nonce) =>
      Table(t.rows[key := row], t.log + [Allocation(key, nonce, !crashes && nonce >= 0)])
  }

  function Serve(t: Table, c: Call): Table {
    if Refused(c) then t else Allocate(t, TrimSpace(c.key), c.seed, c.crashes)
  }

  function Run(t: Table, calls: seq<Call>): Table {
    if |calls| == 0 then t else Serve(Run(t, calls[..|calls| - 1]), calls[|calls| - 1])
  }

  class RuntimeState {
    var rows: map<string, string>
    ghost var log: seq<Allocation>

    ghost function Contents(): Table reads this { Table(rows, log) }

    constructor (stored: map<string, string>)
      ensures Contents() == Table(stored, [])
    {
      rows, log := stored, [];
    }

    method AllocateRuntimeNonce(key: string, seed: int, ghost crashes: bool) returns (r: Option<int>)
      modifies this
      ensures Contents() == Serve(old(Contents()), Call(key, seed, crashes))
      ensures !crashes ==> r == Reply(old(Contents()), Call(key, seed, crashes))
      ensures r.Some? ==> |log| == |old(log)| + 1 && log[|old(log)|] == Allocation(TrimSpace(key), r.value, !crashes)
    {
      var trimmed := TrimSpace(key);
      if |trimmed| == 0 || seed < 0 {
        return None;
      }
      var result := Upsert(Row(rows, trimmed), seed);
      if result.OutOfRange? {
        return None;
      }
      rows := rows[trimmed := result.row];
      log := log + [Allocation(trimmed, result.nonce, !crashes && result.nonce >= 0)];
      if result.nonce < 0 {
        return None;
      }
      r := Some(result.nonce);
    }
  }

  /** What the caller gets; a negative allocation stays committed but is reported as an error. */
  function Reply(t: Table, c: Call): Option<int> {
    if Refused(c) then None
    else
      match Upsert(Row(t.rows, TrimSpace(c.key)), c.seed)
      case OutOfRange => None
      case Committed(_, nonce) => if nonce < 0 || c.crashes then None else Some(nonce)
  }

  /** The number a row holds, or else the seed. */
  ghost predicate IsNext(rows: map<string, string>, key: string, seed: int, next: int) {
    if key in rows && exists n :: Numeric(rows[key]) == Some(n) then Numeric(rows[key]) == Some(next) else next == seed
  }

  /** When a caller gets a number, which one, and what is stored then. */
  lemma RepliesExactlyWhen(t: Table, c: Call, next: int)
    requires IsNext(t.rows, TrimSpace(c.key), c.seed, next)
    ensures Reply(t, c).Some? <==>
            && TrimSpace(c.key) != "" && c.seed >= 0 && !c.crashes
            && c.seed + 1 < TWO_63 && 0 <= next && next + 1 < TWO_63
    ensures Reply(t, c).Some? ==>
              && Reply(t, c) == Some(next)
              && Serve(t, c) == Table(t.rows[TrimSpace(c.key) := FormatInt(next + 1)],
                                      t.log + [Allocation(TrimSpace(c.key), next, true)])
  {
  }

  /** What the k-th caller of a run gets. */
  function ReplyTo(rows: map<string, string>, calls: seq<Call>, k: nat): Option<int>
    requires k < |calls|
  {
    Reply(Run(Table(rows, []), calls[..k]), calls[k])
  }

  // ----- commit order -----

  function NoncesOf(log: seq<Allocation>, key: string): seq<int> {
    if |log| == 0 then []
    else NoncesOf(log[..|log| - 1], key) + if log[|log| - 1].key == key then [log[|log| - 1].nonce] else []
  }

  ghost predicate CountsUpFrom(s: seq<int>, start: int) {
    forall i :: 0 <= i < |s| ==> s[i] == start + i
  }

  /** What a key's calls so far have come to: nothing yet and an untouched row, or `start`, start + 1, ...
      and a row that holds the next number. */
  ghost predicate Counting(row: Option<string>, nonces: seq<int>, before: Option<string>, start: int) {
    && CountsUpFrom(nonces, start)
    && (if |nonces| == 0 then row == before else row == Some(FormatInt(start + |nonces|)))
  }

  lemma CountOn(row: Option<string>, nonces: seq<int>, before: Option<string>, start: int, seed: int)
    requires Counting(row, nonces, before, start)
    requires |nonces| == 0 ==> start == Upcoming(before, seed)
    requires Upsert(row, seed).Committed?
    ensures var r := Upsert(row, seed); Counting(Some(r.row), nonces + [r.nonce], before, start)
  {
    NumericOfFormat(start + |nonces|);
  }

  /** The seed of the first call for this key that the statement can commit. */
  function FirstSeed(calls: seq<Call>, key: string): Option<int> {
    if |calls| == 0 then None
    else
      var earlier, c := FirstSeed(calls[..|calls| - 1], key), calls[|calls| - 1];
      if earlier.Some? then earlier
      else if !Refused(c) && TrimSpace(c.key) == key && Int64(c.seed + 1) then Some(c.seed) else None
  }

  /** Where a key starts: at its numeric row, otherwise at the seed of the first process that asks. */
  function Start(before: Option<string>, calls: seq<Call>, key: string): int {
    if IsNumeric(before) then Numeric(before.value).value
    else match FirstSeed(calls, key) case Some(seed) => seed case None => 0
  }

  ghost predicate Invariant(t: Table, before: Option<string>, calls: seq<Call>, key: string) {
    && Counting(Row(t.rows, key), NoncesOf(t.log, key), before, Start(before, calls, key))
    && (!IsNumeric(before) && FirstSeed(calls, key).None? ==> |NoncesOf(t.log, key)| == 0)
    && (!IsNumeric(before) && FirstSeed(calls, key).Some? ==> |NoncesOf(t.log, key)| > 0)
  }

  lemma LogStep(log: seq<Allocation>, a: Allocation, key: string)
    ensures NoncesOf(log + [a], key) == if a.key == key then NoncesOf(log, key) + [a.nonce] else NoncesOf(log, key)
  {
    assert (log + [a])[..|log|] == log;
  }

  lemma FirstSeedStep(calls: seq<Call>, c: Call, key: string)
    ensures var earlier := FirstSeed(calls, key);
            FirstSeed(calls + [c], key) ==
            if earlier.Some? then earlier
            else if !Refused(c) && TrimSpace(c.key) == key && Int64(c.seed + 1) then Some(c.seed) else None
  {
    assert (calls + [c])[..|calls|] == calls;
  }

  lemma OtherKeysUntouched(t: Table, key: string, seed: int, crashes: bool, other: string)
    requires other != key
    ensures var t' := Allocate(t, key, seed, crashes);
            Row(t'.rows, other) == Row(t.rows, other) && NoncesOf(t'.log, other) == NoncesOf(t.log, other)
  {
    var u := Upsert(Row(t.rows, key), seed);
    if u.Committed? {
      LogStep(t.log, Allocation(key, u.nonce, !crashes && u.nonce >= 0), other);
    }
  }

  lemma FreshSeedCommits(row: Option<string>, seed: int)
    requires !IsNumeric(row) && 0 <= seed && Int64(seed + 1)
    ensures Upsert(row, seed).Committed?
  {
  }

  lemma SameKeyStep(t: Table, before: Option<string>, calls: seq<Call>, key: string, c: Call)
    requires Invariant(t, before, calls, key)
    requires !Refused(c) && TrimSpace(c.key) == key
    ensures Invariant(Allocate(t, key, c.seed, c.crashes), before, calls + [c], key)
  {
    var row, nonces := Row(t.rows, key), NoncesOf(t.log, key);
    var u, start := Upsert(row, c.seed), Start(before, calls + [c], key);
    FirstSeedStep(calls, c, key);
    if u.Committed? {
      LogStep(t.log, Allocation(key, u.nonce, !c.crashes && u.nonce >= 0), key);
      assert Counting(row, nonces, before, start);
      CountOn(row, nonces, before, start, c.seed);
    } else if !IsNumeric(before) && |nonces| == 0 && Int64(c.seed + 1) {
      FreshSeedCommits(row, c.seed);
    }
  }

  lemma OtherKeyStep(t: Table, before: Option<string>, calls: seq<Call>, key: string, c: Call)
    requires Invariant(t, before, calls, key)
    requires Refused(c) || TrimSpace(c.key) != key
    ensures Invariant(Serve(t, c), before, calls + [c], key)
  {
    FirstSeedStep(calls, c, key);
    if !Refused(c) {
      OtherKeysUntouched(t, TrimSpace(c.key), c.seed, c.crashes, key);
    }
  }

  lemma {:induction false} RunKeepsInvariant(rows: map<string, string>, calls: seq<Call>, key: string)
    ensures Invariant(Run(Table(rows, []), calls), Row(rows, key), calls, key)
  {
    if |calls| > 0 {
      var n := |calls| - 1;
      RunKeepsInvariant(rows, calls[..n], key);
      var t := Run(Table(rows, []), calls[..n]);
      if Refused(calls[n]) || TrimSpace(calls[n].key) != key {
        OtherKeyStep(t, Row(rows, key), calls[..n], key, calls[n]);
      } else {
        SameKeyStep(t, Row(rows, key), calls[..n], key, calls[n]);
      }
      assert calls == calls[..n] + [calls[n]];
    }
  }

  /** Whatever processes call, with whatever seeds and crashes, a key's nonces are committed as start,
      start + 1, ... where start is its numeric row or else the first seed. */
  lemma NoncesCountUp(rows: map<string, string>, calls: seq<Call>, key: string)
    ensures CountsUpFrom(NoncesOf(Run(Table(rows, []), calls).log, key), Start(Row(rows, key), calls, key))
  {
    RunKeepsInvariant(rows, calls, key);
  }

  lemma {:induction false} LogPosition(log: seq<Allocation>, i: nat, key: string) returns (p: nat)
    requires i < |log| && log[i].key == key
    ensures p == |NoncesOf(log[..i], key)| && p < |NoncesOf(log, key)| && NoncesOf(log, key)[p] == log[i].nonce
    decreases |log|
  {
    var n := |log| - 1;
    if i == n {
      p := |NoncesOf(log[..n], key)|;
    } else {
      p := LogPosition(log[..n], i, key);
      assert log[..n][..i] == log[..i];
    }
  }

  lemma {:induction false} PrefixIsShorter(log: seq<Allocation>, i: nat, j: nat, key: string)
    requires i < j <= |log| && log[i].key == key
    ensures |NoncesOf(log[..i], key)| < |NoncesOf(log[..j], key)|
  {
    var p := LogPosition(log[..j], i, key);
    assert log[..j][..i] == log[..i];
  }

  /** No key is ever given the same nonce twice, not even one lost in a crash: later commits are larger. */
  lemma NonceNeverReused(rows: map<string, string>, calls: seq<Call>, i: nat, j: nat)
    requires var log := Run(Table(rows, []), calls).log; i < j < |log| && log[i].key == log[j].key
    ensures var log := Run(Table(rows, []), calls).log; log[i].nonce < log[j].nonce
  {
    var log := Run(Table(rows, []), calls).log;
    var key := log[i].key;
    NoncesCountUp(rows, calls, key);
    var p := LogPosition(log, i, key);
    var q := LogPosition(log, j, key);
    PrefixIsShorter(log, i, j, key);
  }

  lemma {:induction false} LogGrows(t: Table, calls: seq<Call>, k: nat)
    requires k <= |calls|
    ensures Run(t, calls[..k]).log <= Run(t, calls).log
  {
    if k < |calls| {
      var n := |calls| - 1;
      LogGrows(t, calls[..n], k);
      assert calls[..n][..k] == calls[..k];
    } else {
      assert calls[..k] == calls;
    }
  }

  /** What a caller gets is what its call has committed. */
  lemma ReplyIsLogged(rows: map<string, string>, calls: seq<Call>, k: nat)
    requires k < |calls| && ReplyTo(rows, calls, k).Some?
    ensures var t := Table(rows, []);
            var at := |Run(t, calls[..k]).log|;
            at < |Run(t, calls[..k + 1]).log|
            && Run(t, calls[..k + 1]).log[at] ==
               Allocation(TrimSpace(calls[k].key), ReplyTo(rows, calls, k).value, true)
  {
    assert calls[..k + 1][..k] == calls[..k];
  }

  /** Whatever processes call, with whatever seeds and crashes, of two callers that get a number for the same key the
      later one gets the larger. */
  lemma RepliesIncrease(rows: map<string, string>, calls: seq<Call>, i: nat, j: nat)
    requires i < j < |calls| && TrimSpace(calls[i].key) == TrimSpace(calls[j].key)
    requires ReplyTo(rows, calls, i).Some? && ReplyTo(rows, calls, j).Some?
    ensures ReplyTo(rows, calls, i).value < ReplyTo(rows, calls, j).value
  {
    var t := Table(rows, []);
    var log, first, second := Run(t, calls).log, |Run(t, calls[..i]).log|, |Run(t, calls[..j]).log|;
    ReplyIsLogged(rows, calls, i);
    ReplyIsLogged(rows, calls, j);
    LogGrows(t, calls, i + 1);
    LogGrows(t, calls, j + 1);
    LogGrows(t, calls[..j], i + 1);
    assert calls[..j][..i + 1] == calls[..i + 1];
    NonceNeverReused(rows, calls, first, second);
  }

  // ----- the in-process counter -----

  /** What the persist callback does with the number it is given. */
  datatype Persist = Stores | FailsUnstored | FailsStored

  datatype Counter = Counter(next: int, persistent: bool, stored: Option<int>)

  predicate Blocks(c: Counter, p: Persist) {
    c.persistent && p != Stores
  }

  function AfterNext(c: Counter, p: Persist): Counter {
    Counter(if Blocks(c, p) then c.next else Wrap64(c.next + 1), c.persistent,
            if c.persistent && p != FailsUnstored then Some(Wrap64(c.next + 1)) else c.stored)
  }

  class MonotonicNonceProvider {
    var next: int
    const persistent: bool
    var stored: Option<int>

    ghost function Contents(): Counter reads this { Counter(next, persistent, stored) }

    constructor (initial: int, persistent: bool)
      ensures Contents() == Counter(initial, persistent, None)
    {
      next, this.persistent, stored := initial, persistent, None;
    }

    method NextNonce(persist: Persist) returns (r: Option<int>)
      modifies this
      ensures Contents() == AfterNext(old(Contents()), persist)
      ensures r == if persistent && persist != Stores then None else Some(old(next))
      ensures next == if r.Some? then Wrap64(old(next) + 1) else old(next)
      ensures stored == if persistent && persist != FailsUnstored then Some(Wrap64(old(next) + 1)) else old(stored)
    {
      var nonce, following := next, Wrap64(next + 1);
      if persistent {
        if persist != FailsUnstored {
          stored := Some(following);
        }
        if persist != Stores {
          return None;
        }
      }
      next := following;
      r := Some(nonce);
    }
  }

  /** A negative start is refused. */
  method NewMonotonicNonceProvider(initial: int, persistent: bool) returns (p: MonotonicNonceProvider?)
    ensures p == null <==> initial < 0
    ensures p != null ==> fresh(p) && p.Contents() == Counter(initial, persistent, None)
  {
    if initial < 0 {
      return null;
    }
    p := new MonotonicNonceProvider(initial, persistent);
  }

  function AfterAll(c: Counter, persists: seq<Persist>): Counter {
    if |persists| == 0 then c else AfterNext(AfterAll(c, persists[..|persists| - 1]), persists[|persists| - 1])
  }

  /** The nonces the callers got. */
  function Trace(c: Counter, persists: seq<Persist>): seq<int> {
    if |persists| == 0 then []
    else
      var n := |persists| - 1;
      var before := AfterAll(c, persists[..n]);
      Trace(c, persists[..n]) + if Blocks(before, persists[n]) then [] else [before.next]
  }

  ghost predicate Traced(c: Counter, after: Counter, trace: seq<int>) {
    && after.persistent == c.persistent
    && after.next == Wrap64(c.next + |trace|)
    && (forall k :: 0 <= k < |trace| ==> trace[k] == Wrap64(c.next + k))
  }

  lemma WrapSuccessor(x: int)
    ensures Wrap64(Wrap64(x) + 1) == Wrap64(x + 1)
  {
  }

  /** Under every pattern of persist failures the callers get the same numbers: a failed call uses none up. */
  lemma {:induction false} TraceCountsUp(c: Counter, persists: seq<Persist>)
    requires Int64(c.next)
    ensures Traced(c, AfterAll(c, persists), Trace(c, persists))
  {
    if |persists| > 0 {
      var n := |persists| - 1;
      TraceCountsUp(c, persists[..n]);
      WrapSuccessor(c.next + |Trace(c, persists[..n])|);
    }
  }

  lemma SameWrap(x: int, d: int)
    ensures Wrap64(x) == Wrap64(x + d) <==> d % TWO_64 == 0
  {
    if d % TWO_64 == 0 {
      WrapShift(x, d / TWO_64);
    }
    if Wrap64(x) == Wrap64(x + d) {
      SameRemainder(Wrap64(x), x, d);
    }
  }

  lemma SameRemainder(r: int, x: int, d: int)
    requires (r - x) % TWO_64 == 0 && (r - (x + d)) % TWO_64 == 0
    ensures d % TWO_64 == 0
  {
    var i, j := (r - x) / TWO_64, (r - (x + d)) / TWO_64;
    assert d == (i - j) * TWO_64;
  }

  /** Within one life two calls get the same nonce exactly when a multiple of 2^64 nonces lies between. */
  lemma TraceRepeatsExactlyWhen(c: Counter, persists: seq<Persist>, i: nat, j: nat)
    requires Int64(c.next) && i < j < |Trace(c, persists)|
    ensures Trace(c, persists)[i] == Trace(c, persists)[j] <==> (j - i) % TWO_64 == 0
  {
    TraceCountsUp(c, persists);
    SameWrap(c.next + i, j - i);
  }

  /** With persistence, the stored number exceeds every nonce handed out. */
  lemma {:induction false} StoredIsAbove(c: Counter, persists: seq<Persist>)
    requires c.persistent && c.stored == None
    requires 0 <= c.next && Int64(c.next + |persists|)
    ensures |Trace(c, persists)| <= |persists|
    ensures var after, used := AfterAll(c, persists), |Trace(c, persists)|;
            && (used > 0 ==> after.stored.Some?)
            && (after.stored.Some? ==> c.next + used <= after.stored.value <= c.next + used + 1)
  {
    TraceCountsUp(c, persists);
    if |persists| > 0 {
      var n := |persists| - 1;
      StoredIsAbove(c, persists[..n]);
      TraceCountsUp(c, persists[..n]);
    }
  }

  /** The order builder's nonce: from its provider, if it has one (None within when the provider fails), and
      never a negative one. */
  function ResolveNonce(provided: Option<Option<int>>, configured: int): (r: Option<int>)
    ensures r.Some? <==> (provided == None && configured >= 0)
                         || (provided.Some? && provided.value.Some? && provided.value.value >= 0)
    ensures r.Some? ==> r.value >= 0 && r == (if provided.Some? then provided.value else Some(configured))
  {
    var nonce := if provided.Some? then provided.value else Some(configured);
    if nonce.Some? && nonce.value >= 0 then nonce else None
  }

  lemma PlainTrace(c: Counter, persists: seq<Persist>)
    requires 0 <= c.next && Int64(c.next + |persists|)
    ensures CountsUpFrom(Trace(c, persists), c.next) && |Trace(c, persists)| <= |persists|
  {
    TraceLength(c, persists);
    TraceCountsUp(c, persists);
  }

  ghost predicate Share(s: seq<int>, t: seq<int>) {
    exists n :: n in s && n in t
  }

  lemma CountRange(s: seq<int>, a: int)
    requires CountsUpFrom(s, a)
    ensures forall n :: n in s ==> a <= n < a + |s|
  {
    forall n | n in s
      ensures a <= n < a + |s|
    {
      var i :| 0 <= i < |s| && s[i] == n;
    }
  }

  lemma OverlappingCounts(s: seq<int>, a: int, t: seq<int>, b: int)
    requires CountsUpFrom(s, a) && CountsUpFrom(t, b)
    requires a <= b < a + |s| && |t| > 0
    ensures Share(s, t)
  {
    assert s[b - a] == b && t[0] == b;
    assert b in s && b in t;
  }

  lemma CountsShareExactlyWhen(s: seq<int>, a: int, t: seq<int>, b: int)
    requires CountsUpFrom(s, a) && CountsUpFrom(t, b) && |s| > 0 && |t| > 0
    ensures Share(s, t) <==> a < b + |t| && b < a + |s|
  {
    CountRange(s, a);
    CountRange(t, b);
    if a <= b < a + |s| {
      OverlappingCounts(s, a, t, b);
    }
    if b <= a < b + |t| {
      OverlappingCounts(t, b, s, a);
    }
  }

  /** Two lives of the counter share a nonce exactly when each starts below where the other ends. */
  lemma LivesShareExactlyWhen(c: Counter, first: seq<Persist>, d: Counter, second: seq<Persist>)
    requires 0 <= c.next && Int64(c.next + |first|) && 0 <= d.next && Int64(d.next + |second|)
    requires Trace(c, first) != [] && Trace(d, second) != []
    ensures Share(Trace(c, first), Trace(d, second)) <==>
            c.next < d.next + |Trace(d, second)| && d.next < c.next + |Trace(c, first)|
  {
    PlainTrace(c, first);
    PlainTrace(d, second);
    CountsShareExactlyWhen(Trace(c, first), c.next, Trace(d, second), d.next);
  }

  /** Two lives that start from the same configured number hand out that number again, whether or not they
      persist. */
  lemma SameSeedReuses(c: Counter, first: seq<Persist>, d: Counter, second: seq<Persist>)
    requires Int64(c.next) && c.next == d.next && Trace(c, first) != [] && Trace(d, second) != []
    ensures Trace(c, first)[0] == Trace(d, second)[0] == c.next
  {
    TraceCountsUp(c, first);
    TraceCountsUp(d, second);
  }

  lemma {:induction false} TraceLength(c: Counter, persists: seq<Persist>)
    ensures |Trace(c, persists)| <= |persists|
  {
    if |persists| > 0 {
      TraceLength(c, persists[..|persists| - 1]);
    }
  }
}
