/** Deterministic replay of raw events (internal/ops/replay.go). */
module Replay {
  import opened Sequences
  import opened Sorting
  import opened Text
  import opened Ingestion

  const BAR := "|"

  datatype ReplayResult = ReplayResult(orderedIDs: seq<string>, checksum: string)

  predicate KeyLess(x: RawEvent, y: RawEvent) {
    if x.sequence == y.sequence then StringLess(x.id, y.id) else x.sequence < y.sequence
  }

  function ByKey(): (RawEvent, RawEvent) -> bool { (x: RawEvent, y: RawEvent) => KeyLess(x, y) }

  lemma ByKeyStrictWeak()
    ensures StrictWeak(ByKey())
  {
    forall x, y
      ensures ByKey()(x, y) ==> !ByKey()(y, x)
    {
      StringLessAsymmetric(x.id, y.id);
    }
    forall x, y, z | ByKey()(x, z)
      ensures ByKey()(x, y) || ByKey()(y, z)
    {
      if x.sequence == z.sequence {
        StringLessSplits(x.id, y.id, z.id);
      }
    }
  }

  predicate SameKey(x: RawEvent, y: RawEvent) {
    x.sequence == y.sequence && x.id == y.id
  }

  lemma UnorderedIsSameKey(x: RawEvent, y: RawEvent)
    ensures !ByKey()(x, y) && !ByKey()(y, x) <==> SameKey(x, y)
  {
    if x.sequence == y.sequence {
      if !StringLess(x.id, y.id) && !StringLess(y.id, x.id) {
        StringLessTotal(x.id, y.id);
      }
      StringLessAsymmetric(x.id, x.id);
    }
  }

  function Render(e: RawEvent): string {
    e.id + ":" + FormatInt(e.sequence as int) + ":" + e.source + ":" + FormatInt(e.sourceTS) + ":"
    + FormatInt(e.ingestTS) + ":" + FormatInt(e.normalizedTS) + ":" + e.payload
  }

  function IDOf(): RawEvent -> string { (e: RawEvent) => e.id }

  function PartOf(): RawEvent -> string { (e: RawEvent) => Render(e) }

  function Join(parts: seq<string>, separator: string): string {
    if |parts| == 0 then ""
    else if |parts| == 1 then parts[0]
    else Join(parts[..|parts| - 1], separator) + separator + parts[|parts| - 1]
  }

  /** What a replay returns after one particular outcome of the unstable sort. */
  function ResultOf(hash: string -> string, sorted: seq<RawEvent>): ReplayResult {
    ReplayResult(Map(sorted, IDOf()), hash(Join(Map(sorted, PartOf()), BAR)))
  }

  ghost predicate IsReplay(hash: string -> string, events: seq<RawEvent>, r: ReplayResult) {
    exists sorted :: IsSortOf(sorted, events, ByKey()) && r == ResultOf(hash, sorted)
  }

  lemma SortBehind(hash: string -> string, events: seq<RawEvent>, r: ReplayResult) returns (s: seq<RawEvent>)
    requires IsReplay(hash, events, r)
    ensures IsSortOf(s, events, ByKey()) && r == ResultOf(hash, s)
  {
    s :| IsSortOf(s, events, ByKey()) && r == ResultOf(hash, s);
  }

  /** Joining puts the separator between any two neighbours and nowhere else. */
  lemma {:induction false} JoinConcat(s: seq<string>, t: seq<string>, separator: string)
    requires s != [] && t != []
    ensures Join(s + t, separator) == Join(s, separator) + separator + Join(t, separator)
  {
    var n := |t| - 1;
    if n == 0 {
      assert (s + t)[..|s|] == s;
    } else {
      JoinConcat(s, t[..n], separator);
      assert (s + t)[..|s| + n] == s + t[..n];
      JoinAssociate(Join(s, separator), separator, Join(t[..n], separator), t[n]);
    }
  }

  lemma JoinAssociate(a: string, separator: string, b: string, c: string)
    ensures a + separator + b + separator + c == a + separator + (b + separator + c)
  {
  }

  /** The fields of a part in their order. */
  lemma PartIsFields(e: RawEvent)
    ensures Render(e) == Join([e.id, FormatInt(e.sequence as int), e.source, FormatInt(e.sourceTS),
                               FormatInt(e.ingestTS), FormatInt(e.normalizedTS), e.payload], ":")
  {
    var fields := [e.id, FormatInt(e.sequence as int), e.source, FormatInt(e.sourceTS), FormatInt(e.ingestTS),
                   FormatInt(e.normalizedTS), e.payload];
    JoinTail(fields, 1);
    JoinTail(fields, 2);
    JoinTail(fields, 3);
    JoinTail(fields, 4);
    JoinTail(fields, 5);
    JoinTail(fields, 6);
    assert fields[..7] == fields;
  }

  lemma JoinTail(fields: seq<string>, k: nat)
    requires 0 < k < |fields|
    ensures Join(fields[..k + 1], ":") == Join(fields[..k], ":") + ":" + fields[k]
    ensures Join(fields[..1], ":") == fields[0]
  {
    assert fields[..k + 1][..k] == fields[..k];
  }

  /** The events in ascending order of their sequence numbers, those of one number by id. */
  ghost predicate Ascends(s: seq<RawEvent>) {
    forall i, j :: 0 <= i < j < |s| ==>
                     s[i].sequence < s[j].sequence
                     || (s[i].sequence == s[j].sequence && !StringLess(s[j].id, s[i].id))
  }

  /** A replay lists the ids and hashes the parts of the same events in ascending order. */
  lemma ReplayAscends(hash: string -> string, events: seq<RawEvent>, r: ReplayResult) returns (s: seq<RawEvent>)
    requires IsReplay(hash, events, r)
    ensures multiset(s) == multiset(events) && Ascends(s)
    ensures |r.orderedIDs| == |s| && forall i :: 0 <= i < |s| ==> r.orderedIDs[i] == s[i].id
    ensures exists parts :: |parts| == |s| && r.checksum == hash(Join(parts, "|"))
                            && forall i :: 0 <= i < |s| ==> parts[i] == Render(s[i])
  {
    s := SortBehind(hash, events, r);
    forall i, j | 0 <= i < j < |s|
      ensures s[i].sequence < s[j].sequence
              || (s[i].sequence == s[j].sequence && !StringLess(s[j].id, s[i].id))
    {
      assert !ByKey()(s[j], s[i]);
    }
    var parts := Map(s, PartOf());
    assert r.checksum == hash(Join(parts, "|"));
  }

  method ReplayDeterministic(hash: string -> string, events: seq<RawEvent>) returns (r: ReplayResult)
    ensures IsReplay(hash, events, r)
  {
    var cloned := new RawEvent[|events|](i requires 0 <= i < |events| => events[i]);
    assert cloned[..] == events;
    ByKeyStrictWeak();
    SortSlice(cloned, ByKey());
    var ids, parts := Collect(cloned[..], IDOf(), PartOf());
    r := ReplayResult(ids, hash(Join(parts, BAR)));
    assert r == ResultOf(hash, cloned[..]);
  }

  /** The loop over the sorted events. */
  method Collect(sorted: seq<RawEvent>, id: RawEvent -> string, part: RawEvent -> string)
    returns (ids: seq<string>, parts: seq<string>)
    ensures ids == Map(sorted, id) && parts == Map(sorted, part)
  {
    ids, parts := [], [];
    for i := 0 to |sorted|
      invariant ids == Map(sorted, id)[..i] && parts == Map(sorted, part)[..i]
    {
      ids := ids + [id(sorted[i])];
      parts := parts + [part(sorted[i])];
    }
  }

  /** Two sorts of the same events agree on the keys position by position. */
  lemma SortsShareKeys(s: seq<RawEvent>, t: seq<RawEvent>, events: seq<RawEvent>, events': seq<RawEvent>, i: nat)
    requires multiset(events) == multiset(events')
    requires IsSortOf(s, events, ByKey()) && IsSortOf(t, events', ByKey()) && i < |s|
    ensures |s| == |t| && SameKey(s[i], t[i])
  {
    ByKeyStrictWeak();
    SortsAgree(s, t, ByKey(), i);
    SortsAgree(t, s, ByKey(), i);
    UnorderedIsSameKey(s[i], t[i]);
  }

  lemma SortsShareIDs(s: seq<RawEvent>, t: seq<RawEvent>, events: seq<RawEvent>, events': seq<RawEvent>)
    requires multiset(events) == multiset(events')
    requires IsSortOf(s, events, ByKey()) && IsSortOf(t, events', ByKey())
    ensures Map(s, IDOf()) == Map(t, IDOf())
  {
    PermutationMembers(s, t);
    forall i | 0 <= i < |s|
      ensures IDOf()(s[i]) == IDOf()(t[i])
    {
      SortsShareKeys(s, t, events, events', i);
    }
  }

  /** The ordered ids are the same for every permutation of the input and every outcome of the sort. */
  lemma OrderedIDsAreDetermined(hash: string -> string, events: seq<RawEvent>, r: ReplayResult, events': seq<RawEvent>,
                                r': ReplayResult)
    requires multiset(events) == multiset(events') && IsReplay(hash, events, r) && IsReplay(hash, events', r')
    ensures r.orderedIDs == r'.orderedIDs
  {
    var s := SortBehind(hash, events, r);
    var t := SortBehind(hash, events', r');
    SortsShareIDs(s, t, events, events');
  }

  // ----- the text that is hashed -----

  /** The words of the events one after the other. */
  function Glued(s: seq<RawEvent>, word: RawEvent -> string): string {
    if |s| == 0 then "" else Glued(s[..|s| - 1], word) + word(s[|s| - 1])
  }

  function Worded(part: RawEvent -> string, separator: string): RawEvent -> string {
    (e: RawEvent) => part(e) + separator
  }

  lemma GluedOne(s: seq<RawEvent>, e: RawEvent, word: RawEvent -> string)
    ensures Glued(s + [e], word) == Glued(s, word) + word(e)
  {
    assert (s + [e])[..|s|] == s;
  }

  lemma {:induction false} GluedConcat(s: seq<RawEvent>, t: seq<RawEvent>, word: RawEvent -> string)
    ensures Glued(s + t, word) == Glued(s, word) + Glued(t, word)
  {
    if |t| == 0 {
      WholeTake(s);
      WholeTake(Glued(s, word));
    } else {
      var init, e := t[..|t| - 1], t[|t| - 1];
      GluedConcat(s, init, word);
      GluedOne(s + init, e, word);
      TakeStep(t, |t| - 1);
      WholeTake(t);
      Associate(s, init, [e]);
      Associate(Glued(s, word), Glued(init, word), word(e));
    }
  }

  /** Joining with separators in between is gluing words that end in one, but for the last separator. */
  lemma {:induction false} JoinIsGlued(s: seq<RawEvent>, part: RawEvent -> string, separator: string)
    requires |s| > 0
    ensures Join(Map(s, part), separator) + separator == Glued(s, Worded(part, separator))
  {
    var n := |s| - 1;
    if n == 0 {
      assert s[..0] == [];
      assert "" + Worded(part, separator)(s[0]) == part(s[0]) + separator;
    } else {
      JoinIsGlued(s[..n], part, separator);
      assert Map(s, part)[..n] == Map(s[..n], part);
      var before := Join(Map(s[..n], part), separator);
      Associate(before + separator, part(s[n]), separator);
    }
  }

  lemma SameJoinExactlyWhen(s: seq<RawEvent>, t: seq<RawEvent>, part: RawEvent -> string, separator: string)
    requires |s| == |t|
    ensures Join(Map(s, part), separator) == Join(Map(t, part), separator) <==>
            Glued(s, Worded(part, separator)) == Glued(t, Worded(part, separator))
  {
    if |s| > 0 {
      JoinIsGlued(s, part, separator);
      JoinIsGlued(t, part, separator);
      if Glued(s, Worded(part, separator)) == Glued(t, Worded(part, separator)) {
        EqualTails(Join(Map(s, part), separator), Join(Map(t, part), separator), separator);
      }
    }
  }

  /** It does not matter which of two events with the same sequence and id comes first. */
  ghost predicate TiesCommute(part: RawEvent -> string, separator: string, events: seq<RawEvent>) {
    forall x, y :: x in events && y in events && SameKey(x, y) ==>
                     part(x) + separator + part(y) == part(y) + separator + part(x)
  }

  ghost predicate WordsCommute(word: RawEvent -> string, events: seq<RawEvent>) {
    forall x, y :: x in events && y in events && SameKey(x, y) ==> word(x) + word(y) == word(y) + word(x)
  }

  lemma CommuteExactlyWhen(a: string, b: string, separator: string)
    ensures a + separator + b == b + separator + a <==>
            (a + separator) + (b + separator) == (b + separator) + (a + separator)
  {
    Associate(a + separator, b, separator);
    Associate(b + separator, a, separator);
    if (a + separator) + (b + separator) == (b + separator) + (a + separator) {
      EqualTails(a + separator + b, b + separator + a, separator);
    }
  }

  lemma WordsCommuteExactlyWhen(part: RawEvent -> string, separator: string, events: seq<RawEvent>)
    ensures WordsCommute(Worded(part, separator), events) <==> TiesCommute(part, separator, events)
  {
    forall x, y
      ensures part(x) + separator + part(y) == part(y) + separator + part(x) <==>
              Worded(part, separator)(x) + Worded(part, separator)(y) ==
              Worded(part, separator)(y) + Worded(part, separator)(x)
    {
      CommuteExactlyWhen(part(x), part(y), separator);
    }
  }

  // ----- commuting ties give one text -----

  /** A word that commutes with every word of a block slides past the block. */
  lemma {:induction false} Slide(w: string, s: seq<RawEvent>, word: RawEvent -> string)
    requires forall e :: e in s ==> w + word(e) == word(e) + w
    ensures w + Glued(s, word) == Glued(s, word) + w
  {
    if |s| > 0 {
      var init, e := s[..|s| - 1], s[|s| - 1];
      var g := Glued(init, word);
      Slide(w, init, word);
      Associate(w, g, word(e));
      Associate(g, w, word(e));
      Associate(g, word(e), w);
    } else {
      WholeTake(w);
      assert "" + w == w;
    }
  }

  /** In a sort, what comes after an event that is last in another sort ties with it. */
  lemma AfterLastAreTies(s: seq<RawEvent>, t: seq<RawEvent>, k: nat, j: nat)
    requires Sorted(s, ByKey()) && Sorted(t, ByKey()) && multiset(s) == multiset(t)
    requires |s| > 0 && k < j < |t| && t[k] == s[|s| - 1]
    ensures SameKey(t[k], t[j]) && t[j] in s && t[k] in s
  {
    PermutationMembers(s, t);
    var e, f := t[k], t[j];
    assert f in s && !ByKey()(f, e);
    var i :| 0 <= i < |s| && s[i] == f;
    if i == |s| - 1 {
      assert e == f;
    } else {
      assert !ByKey()(s[|s| - 1], s[i]);
      UnorderedIsSameKey(e, f);
    }
  }

  lemma MoveToEnd(t: seq<RawEvent>, k: nat, word: RawEvent -> string)
    requires k < |t|
    requires forall e :: e in t[k + 1..] ==> word(t[k]) + word(e) == word(e) + word(t[k])
    ensures Glued(t, word) == Glued(RemoveAt(t, k), word) + word(t[k])
  {
    var a, b, w := t[..k], t[k + 1..], word(t[k]);
    SplitAt(t, k);
    GluedConcat(a + [t[k]], b, word);
    GluedOne(a, t[k], word);
    Slide(w, b, word);
    GluedConcat(a, b, word);
    Associate(Glued(a, word), w, Glued(b, word));
    Associate(Glued(a, word), Glued(b, word), w);
  }

  lemma SortedWithout(t: seq<RawEvent>, k: nat)
    requires Sorted(t, ByKey()) && k < |t|
    ensures Sorted(RemoveAt(t, k), ByKey())
  {
    var r := RemoveAt(t, k);
    forall i, j | 0 <= i < j < |r|
      ensures !ByKey()(r[j], r[i])
    {
      var i', j' := if i < k then i else i + 1, if j < k then j else j + 1;
      assert r[i] == t[i'] && r[j] == t[j'];
    }
  }

  lemma FewerWordsCommute(word: RawEvent -> string, s: seq<RawEvent>)
    requires |s| > 0 && WordsCommute(word, s)
    ensures WordsCommute(word, s[..|s| - 1])
  {
    assert forall e :: e in s[..|s| - 1] ==> e in s;
  }

  lemma LastSlides(s: seq<RawEvent>, t: seq<RawEvent>, k: nat, word: RawEvent -> string)
    requires Sorted(s, ByKey()) && Sorted(t, ByKey()) && multiset(s) == multiset(t)
    requires |s| > 0 && k < |t| && t[k] == s[|s| - 1] && WordsCommute(word, s)
    ensures Glued(t, word) == Glued(RemoveAt(t, k), word) + word(t[k])
  {
    forall e | e in t[k + 1..]
      ensures word(t[k]) + word(e) == word(e) + word(t[k])
    {
      var j :| k < j < |t| && t[j] == e;
      AfterLastAreTies(s, t, k, j);
    }
    MoveToEnd(t, k, word);
  }

  /** Two sorts of the same events read alike when tied words commute. */
  lemma {:induction false} SortsReadAlike(s: seq<RawEvent>, t: seq<RawEvent>, word: RawEvent -> string)
    requires Sorted(s, ByKey()) && Sorted(t, ByKey()) && multiset(s) == multiset(t) && WordsCommute(word, s)
    ensures Glued(s, word) == Glued(t, word)
    decreases |s|
  {
    if |s| == 0 {
      assert |multiset(t)| == |t|;
    } else {
      var k := LastInPermutation(s, t);
      SortedBeforeLast(s, ByKey());
      SortedWithout(t, k);
      FewerWordsCommute(word, s);
      SortsReadAlike(s[..|s| - 1], RemoveAt(t, k), word);
      LastSlides(s, t, k, word);
    }
  }

  // ----- ties that do not commute give two texts -----

  /** Position by position the same keys: sorted alike. */
  lemma SameKeysSorted(s: seq<RawEvent>, t: seq<RawEvent>)
    requires Sorted(s, ByKey()) && |s| == |t| && forall i :: 0 <= i < |s| ==> SameKey(s[i], t[i])
    ensures Sorted(t, ByKey())
  {
    forall i, j | 0 <= i < j < |t|
      ensures !ByKey()(t[j], t[i])
    {
      assert !ByKey()(s[j], s[i]);
      assert KeyLess(t[j], t[i]) == KeyLess(s[j], s[i]);
    }
  }

  lemma BetweenTies(s: seq<RawEvent>, i: nat, j: nat, p: nat)
    requires Sorted(s, ByKey()) && i <= p <= j < |s| && SameKey(s[i], s[j])
    ensures SameKey(s[i], s[p])
  {
    if i < p < j {
      var x, y, z := s[i], s[p], s[j];
      assert !ByKey()(y, x) && !ByKey()(z, y);
      assert KeyLess(z, y) == KeyLess(x, y);
      UnorderedIsSameKey(x, y);
    }
  }

  /** Two events side by side, at the place of the first: `before`, the two, and what was behind. */
  function Gathered(s: seq<RawEvent>, i: nat, j: nat, x: RawEvent, y: RawEvent): seq<RawEvent>
    requires i < j < |s|
  {
    s[..i] + [x] + [y] + (s[i + 1..j] + s[j + 1..])
  }

  lemma MultisetAround(s: seq<RawEvent>, i: nat, j: nat)
    requires i < j < |s|
    ensures multiset(s) ==
            multiset(s[..i]) + multiset{s[i]} + multiset{s[j]} + multiset(s[i + 1..j]) + multiset(s[j + 1..])
  {
    SplitTwice(s, i, j);
    MultisetOfParts(s[..i], s[i], s[i + 1..j], s[j], s[j + 1..]);
  }

  lemma GatheredMultiset(s: seq<RawEvent>, i: nat, j: nat)
    requires i < j < |s|
    ensures multiset(Gathered(s, i, j, s[i], s[j])) == multiset(s)
  {
    MultisetAround(s, i, j);
    MultisetOfPair(s[..i], s[i], s[j], s[i + 1..j], s[j + 1..]);
  }

  lemma GatheredBackMultiset(s: seq<RawEvent>, i: nat, j: nat)
    requires i < j < |s|
    ensures multiset(Gathered(s, i, j, s[j], s[i])) == multiset(s)
  {
    MultisetAround(s, i, j);
    MultisetOfPair(s[..i], s[j], s[i], s[i + 1..j], s[j + 1..]);
  }

  lemma MultisetOfPair(a: seq<RawEvent>, x: RawEvent, y: RawEvent, b: seq<RawEvent>, c: seq<RawEvent>)
    ensures multiset(a + [x] + [y] + (b + c)) ==
            multiset(a) + multiset{x} + multiset{y} + multiset(b) + multiset(c)
  {
  }

  lemma GatheredKeys(s: seq<RawEvent>, i: nat, j: nat, x: RawEvent, y: RawEvent)
    requires Sorted(s, ByKey()) && i < j < |s| && SameKey(s[i], s[j]) && SameKey(s[i], x) && SameKey(s[i], y)
    ensures var t := Gathered(s, i, j, x, y);
            |t| == |s| && forall p :: 0 <= p < |s| ==> SameKey(s[p], t[p])
  {
    var t := Gathered(s, i, j, x, y);
    forall p | 0 <= p < |s|
      ensures SameKey(s[p], t[p])
    {
      if i <= p <= j {
        BetweenTies(s, i, j, p);
        if p >= i + 2 {
          assert t[p] == s[p - 1];
          BetweenTies(s, i, j, p - 1);
        }
      } else {
        assert t[p] == s[p];
      }
    }
  }

  lemma GatheredIsSort(s: seq<RawEvent>, events: seq<RawEvent>, i: nat, j: nat)
    requires IsSortOf(s, events, ByKey()) && i < j < |s| && SameKey(s[i], s[j])
    ensures IsSortOf(Gathered(s, i, j, s[i], s[j]), events, ByKey())
    ensures IsSortOf(Gathered(s, i, j, s[j], s[i]), events, ByKey())
  {
    GatheredMultiset(s, i, j);
    GatheredBackMultiset(s, i, j);
    GatheredKeys(s, i, j, s[i], s[j]);
    SameKeysSorted(s, Gathered(s, i, j, s[i], s[j]));
    GatheredKeys(s, i, j, s[j], s[i]);
    SameKeysSorted(s, Gathered(s, i, j, s[j], s[i]));
  }

  lemma GluedGathered(s: seq<RawEvent>, i: nat, j: nat, x: RawEvent, y: RawEvent, word: RawEvent -> string)
    requires i < j < |s|
    ensures Glued(Gathered(s, i, j, x, y), word) ==
            Glued(s[..i], word) + (word(x) + word(y)) + Glued(s[i + 1..j] + s[j + 1..], word)
  {
    GluedConcat(s[..i] + [x] + [y], s[i + 1..j] + s[j + 1..], word);
    GluedOne(s[..i] + [x], y, word);
    GluedOne(s[..i], x, word);
    Associate(Glued(s[..i], word), word(x), word(y));
  }

  lemma EqualMiddles(a: string, x: string, y: string, c: string)
    requires |x| == |y| && a + x + c == a + y + c
    ensures x == y
  {
    EqualTails(a + x, a + y, c);
    assert (a + x)[|a|..] == x && (a + y)[|a|..] == y;
  }

  lemma GatheredReadApart(s: seq<RawEvent>, i: nat, j: nat, word: RawEvent -> string)
    requires i < j < |s| && word(s[i]) + word(s[j]) != word(s[j]) + word(s[i])
    ensures Glued(Gathered(s, i, j, s[i], s[j]), word) != Glued(Gathered(s, i, j, s[j], s[i]), word)
  {
    var x, y, rest := s[i], s[j], Glued(s[i + 1..j] + s[j + 1..], word);
    GluedGathered(s, i, j, x, y, word);
    GluedGathered(s, i, j, y, x, word);
    if Glued(Gathered(s, i, j, x, y), word) == Glued(Gathered(s, i, j, y, x), word) {
      EqualMiddles(Glued(s[..i], word), word(x) + word(y), word(y) + word(x), rest);
    }
  }

  lemma ClashingEvents(word: RawEvent -> string, s: seq<RawEvent>, events: seq<RawEvent>) returns (i: nat, j: nat)
    requires multiset(s) == multiset(events) && !WordsCommute(word, events)
    ensures i < j < |s| && SameKey(s[i], s[j]) && word(s[i]) + word(s[j]) != word(s[j]) + word(s[i])
  {
    PermutationMembers(s, events);
    var x, y :| x in events && y in events && SameKey(x, y) && word(x) + word(y) != word(y) + word(x);
    assert x in s && y in s;
    i :| 0 <= i < |s| && s[i] == x;
    j :| 0 <= j < |s| && s[j] == y;
    if j < i {
      i, j := j, i;
    }
  }

  /** When ties do not commute some sort reads differently. */
  lemma SomeSortReadsApart(word: RawEvent -> string, s: seq<RawEvent>, events: seq<RawEvent>) returns (t: seq<RawEvent>)
    requires IsSortOf(s, events, ByKey()) && !WordsCommute(word, events)
    ensures IsSortOf(t, events, ByKey()) && Glued(t, word) != Glued(s, word)
  {
    var i, j := ClashingEvents(word, s, events);
    GatheredIsSort(s, events, i, j);
    GatheredReadApart(s, i, j, word);
    t := Gathered(s, i, j, s[i], s[j]);
    if Glued(t, word) == Glued(s, word) {
      t := Gathered(s, i, j, s[j], s[i]);
    }
  }

  ghost predicate OneText(part: RawEvent -> string, separator: string, s: seq<RawEvent>, events: seq<RawEvent>) {
    forall t :: IsSortOf(t, events, ByKey()) ==> Join(Map(t, part), separator) == Join(Map(s, part), separator)
  }

  lemma CommutingTiesGiveOneText(part: RawEvent -> string, separator: string, s: seq<RawEvent>, events: seq<RawEvent>,
                                 t: seq<RawEvent>, events': seq<RawEvent>)
    requires multiset(events) == multiset(events') && TiesCommute(part, separator, events)
    requires IsSortOf(s, events, ByKey()) && IsSortOf(t, events', ByKey())
    ensures Join(Map(s, part), separator) == Join(Map(t, part), separator)
  {
    var word := Worded(part, separator);
    WordsCommuteExactlyWhen(part, separator, events);
    PermutationMembers(s, events);
    PermutationMembers(s, t);
    assert WordsCommute(word, s);
    SortsReadAlike(s, t, word);
    SameJoinExactlyWhen(s, t, part, separator);
  }

  /** The joined text that is hashed is independent of how the sort leaves ties exactly when it does not
      matter, for any two events that share sequence and id, which of them is written first. */
  lemma TextIndependentOfTies(part: RawEvent -> string, separator: string, s: seq<RawEvent>, events: seq<RawEvent>)
    requires IsSortOf(s, events, ByKey())
    ensures OneText(part, separator, s, events) <==> TiesCommute(part, separator, events)
  {
    if TiesCommute(part, separator, events) {
      forall t | IsSortOf(t, events, ByKey())
        ensures Join(Map(t, part), separator) == Join(Map(s, part), separator)
      {
        CommutingTiesGiveOneText(part, separator, t, events, s, events);
      }
    } else {
      WordsCommuteExactlyWhen(part, separator, events);
      var t := SomeSortReadsApart(Worded(part, separator), s, events);
      PermutationMembers(s, events);
      PermutationMembers(t, events);
      SameJoinExactlyWhen(t, s, part, separator);
    }
  }

  /** The checksum is the same for every permutation of the input when ties commute. */
  lemma ChecksumIsDetermined(hash: string -> string, events: seq<RawEvent>, r: ReplayResult, events': seq<RawEvent>,
                             r': ReplayResult)
    requires multiset(events) == multiset(events') && TiesCommute(PartOf(), BAR, events)
    requires IsReplay(hash, events, r) && IsReplay(hash, events', r')
    ensures r == r'
  {
    var s := SortBehind(hash, events, r);
    var t := SortBehind(hash, events', r');
    CommutingTiesGiveOneText(PartOf(), BAR, s, events, t, events');
    SortsShareIDs(s, t, events, events');
  }

  /** Events that share sequence and id render alike. */
  ghost predicate SameKeySameText(part: RawEvent -> string, events: seq<RawEvent>) {
    forall x, y :: x in events && y in events && SameKey(x, y) ==> part(x) == part(y)
  }

  lemma SameTextsCommute(part: RawEvent -> string, separator: string, events: seq<RawEvent>)
    requires SameKeySameText(part, events)
    ensures TiesCommute(part, separator, events)
  {
    forall x, y | x in events && y in events && SameKey(x, y)
      ensures part(x) + separator + part(y) == part(y) + separator + part(x)
    {
      assert part(x) == part(y);
    }
  }

  /** So replays of anything a ledger lists, in any order, are equal. */
  lemma LedgerReplayIsDeterministic(hash: string -> string, ledger: seq<RawEvent>, r: ReplayResult,
                                    shuffled: seq<RawEvent>, r': ReplayResult)
    requires DistinctIDs(ledger) && multiset(ledger) == multiset(shuffled)
    requires IsReplay(hash, ledger, r) && IsReplay(hash, shuffled, r')
    ensures r == r'
  {
    forall x, y | x in ledger && y in ledger && SameKey(x, y)
      ensures x == y
    {
      var i :| 0 <= i < |ledger| && ledger[i] == x;
      var j :| 0 <= j < |ledger| && ledger[j] == y;
      assert i == j;
    }
    SameTextsCommute(PartOf(), BAR, ledger);
    ChecksumIsDetermined(hash, ledger, r, shuffled, r');
  }
}
