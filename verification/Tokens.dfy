/** Token ids: trimmed, non-empty, each where it first occurs (normalizeTokenIDs and the loop body of
    BuildPOLYAssetIDs in internal/assetpicker/selector.go). */
module Tokens {
  import opened Sequences
  import opened Text

  function Trimming(): string -> string { (s: string) => TrimSpace(s) }

  function AddToken(found: seq<string>, token: string): seq<string> {
    if |token| == 0 || token in found then found else found + [token]
  }

  function Distinct(tokens: seq<string>, trim: string -> string): seq<string> {
    if |tokens| == 0 then [] else AddToken(Distinct(tokens[..|tokens| - 1], trim), trim(tokens[|tokens| - 1]))
  }

  lemma DistinctStep(before: seq<string>, token: string, trim: string -> string)
    ensures Distinct(before + [token], trim) == AddToken(Distinct(before, trim), trim(token))
  {
    assert (before + [token])[..|before|] == before;
  }

  predicate Yields(tokens: seq<string>, trim: string -> string, t: string) {
    |t| > 0 && exists i :: 0 <= i < |tokens| && trim(tokens[i]) == t
  }

  lemma YieldsStep(before: seq<string>, token: string, trim: string -> string, t: string)
    ensures Yields(before + [token], trim, t) <==> Yields(before, trim, t) || (|t| > 0 && trim(token) == t)
  {
    var all := before + [token];
    if Yields(before, trim, t) {
      var i :| 0 <= i < |before| && trim(before[i]) == t;
      assert all[i] == before[i];
    }
    if |t| > 0 && trim(token) == t {
      assert all[|before|] == token;
    }
  }

  lemma {:induction false} DistinctMembers(tokens: seq<string>, trim: string -> string, t: string)
    ensures t in Distinct(tokens, trim) <==> Yields(tokens, trim, t)
  {
    if |tokens| > 0 {
      var n := |tokens| - 1;
      DistinctMembers(tokens[..n], trim, t);
      YieldsStep(tokens[..n], tokens[n], trim, t);
      assert tokens == tokens[..n] + [tokens[n]];
    }
  }

  /** What the trimmed list holds: no token twice, and exactly the non-empty trimmed ids. */
  lemma {:induction false} DistinctNoDup(tokens: seq<string>, trim: string -> string)
    ensures NoDup(Distinct(tokens, trim))
  {
    if |tokens| > 0 {
      DistinctNoDup(tokens[..|tokens| - 1], trim);
    }
  }

  /** Further tokens only add at the end. */
  lemma {:induction false} DistinctGrow(before: seq<string>, more: seq<string>, trim: string -> string)
    ensures Distinct(before, trim) <= Distinct(before + more, trim)
  {
    if |more| == 0 {
      assert before + more == before;
    } else {
      var n := |more| - 1;
      DistinctGrow(before, more[..n], trim);
      DistinctStep(before + more[..n], more[n], trim);
      assert before + more == before + more[..n] + [more[n]];
    }
  }

  /** The places at which the ids of a list first occur. */
  ghost predicate FirstPlaces(tokens: seq<string>, trim: string -> string, found: seq<string>, places: seq<nat>) {
    && |places| == |found|
    && (forall i :: 0 <= i < |places| ==> places[i] < |tokens| && trim(tokens[places[i]]) == found[i])
    && (forall i, k :: 0 <= i < |places| && 0 <= k < places[i] && k < |tokens| ==> trim(tokens[k]) != found[i])
    && forall i, j :: 0 <= i < j < |places| ==> places[i] < places[j]
  }

  lemma PlacesStay(before: seq<string>, token: string, trim: string -> string, found: seq<string>, places: seq<nat>)
    requires FirstPlaces(before, trim, found, places)
    ensures FirstPlaces(before + [token], trim, found, places)
  {
    var all := before + [token];
    assert forall k :: 0 <= k < |before| ==> all[k] == before[k];
  }

  lemma PlacesGrow(before: seq<string>, token: string, trim: string -> string, found: seq<string>, places: seq<nat>)
    requires FirstPlaces(before, trim, found, places)
    requires forall k :: 0 <= k < |before| ==> trim(before[k]) != trim(token)
    ensures FirstPlaces(before + [token], trim, found + [trim(token)], places + [|before|])
  {
    PlacesStay(before, token, trim, found, places);
    var all := before + [token];
    assert all[|before|] == token;
    assert forall k :: 0 <= k < |before| ==> all[k] == before[k];
  }

  /** The list keeps the order of first occurrence. */
  lemma {:induction false} DistinctInOrder(tokens: seq<string>, trim: string -> string) returns (places: seq<nat>)
    ensures FirstPlaces(tokens, trim, Distinct(tokens, trim), places)
  {
    places := [];
    if |tokens| > 0 {
      var before, token := tokens[..|tokens| - 1], tokens[|tokens| - 1];
      var found := Distinct(before, trim);
      places := DistinctInOrder(before, trim);
      assert tokens == before + [token];
      if |trim(token)| > 0 && trim(token) !in found {
        NotYetFound(before, trim, trim(token));
        PlacesGrow(before, token, trim, found, places);
        places := places + [|before|];
      } else {
        PlacesStay(before, token, trim, found, places);
      }
    }
  }

  lemma NotYetFound(tokens: seq<string>, trim: string -> string, token: string)
    requires |token| > 0 && token !in Distinct(tokens, trim)
    ensures forall k :: 0 <= k < |tokens| ==> trim(tokens[k]) != token
  {
    DistinctMembers(tokens, trim, token);
  }

  /** A list of ids under construction: the set used for look-ups holds the same tokens as the list. */
  ghost predicate Collects(found: seq<string>, seen: set<string>, tokens: seq<string>) {
    found == Distinct(tokens, Trimming()) && forall t :: t in seen <==> t in found
  }

  method AddIfNew(ghost before: seq<string>, token: string, found: seq<string>, seen: set<string>)
      returns (assetIDs: seq<string>, known: set<string>)
    requires Collects(found, seen, before)
    ensures Collects(assetIDs, known, before + [token])
    ensures |assetIDs| <= |found| + 1
  {
    DistinctStep(before, token, Trimming());
    assetIDs, known := found, seen;
    var trimmed := TrimSpace(token);
    assert trimmed == Trimming()(token);
    if |trimmed| > 0 && trimmed !in known {
      known := known + {trimmed};
      assetIDs := assetIDs + [trimmed];
    }
  }

  method NormalizeTokenIDs(tokens: seq<string>) returns (normalized: seq<string>)
    ensures normalized == Distinct(tokens, Trimming())
    ensures NoDup(normalized)
    ensures forall t :: t in normalized <==> t != "" && exists u :: u in tokens && TrimSpace(u) == t
    ensures exists places :: FirstPlaces(tokens, Trimming(), normalized, places)
  {
    var seen := {};
    normalized := [];
    for i := 0 to |tokens|
      invariant Collects(normalized, seen, tokens[..i])
    {
      normalized, seen := AddIfNew(tokens[..i], tokens[i], normalized, seen);
      assert tokens[..i + 1] == tokens[..i] + [tokens[i]];
    }
    assert tokens[..|tokens|] == tokens;
    DistinctNoDup(tokens, Trimming());
    TrimmedMembers(tokens);
    ghost var places := DistinctInOrder(tokens, Trimming());
  }

  lemma TrimmedMembers(tokens: seq<string>)
    ensures forall t :: t in Distinct(tokens, Trimming()) <==> t != "" && exists u :: u in tokens && TrimSpace(u) == t
  {
    forall t
      ensures t in Distinct(tokens, Trimming()) <==> t != "" && exists u :: u in tokens && TrimSpace(u) == t
    {
      DistinctMembers(tokens, Trimming(), t);
      if u :| u in tokens && TrimSpace(u) == t {
        var k :| 0 <= k < |tokens| && tokens[k] == u;
        assert Trimming()(tokens[k]) == t;
      }
    }
  }

  lemma AppendedStep(before: seq<string>, tokens: seq<string>, i: nat)
    requires i < |tokens|
    ensures before + tokens[..i + 1] == before + tokens[..i] + [tokens[i]]
  {
    TakeStep(tokens, i);
    Associate(before, tokens[..i], [tokens[i]]);
  }

  /** One market's tokens added to those found before it, until the cap is reached. */
  method AddTokens(ghost before: seq<string>, tokens: seq<string>, found: seq<string>, seen: set<string>, cap: int)
      returns (assetIDs: seq<string>, known: set<string>, full: bool, ghost taken: nat)
    requires Collects(found, seen, before)
    requires cap > 0 ==> |found| < cap
    ensures taken <= |tokens| && Collects(assetIDs, known, before + tokens[..taken])
    ensures full ==> cap > 0 && |assetIDs| == cap
    ensures !full ==> taken == |tokens| && (cap > 0 ==> |assetIDs| < cap)
  {
    assetIDs, known, full, taken := found, seen, false, 0;
    assert before + tokens[..0] == before;
    for i := 0 to |tokens|
      invariant taken == i && Collects(assetIDs, known, before + tokens[..i])
      invariant cap > 0 ==> |assetIDs| < cap
    {
      assetIDs, known := AddIfNew(before + tokens[..i], tokens[i], assetIDs, known);
      AppendedStep(before, tokens, i);
      taken := i + 1;
      if cap > 0 && |assetIDs| >= cap {
        full := true;
        return;
      }
    }
  }
}
