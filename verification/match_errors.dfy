/**
 * Mapping the server's error strings for a match action to stable codes, and
 * the codes to user-facing messages (`src/lib/match/error-messages.ts`).
 */
module MatchErrors {
  import opened Wrappers
  import opened Text

  // ---------------------------------------------------------------------
  // The codes
  // ---------------------------------------------------------------------

  // The two longest codes are written as two literals joined; the strings
  // are the same, and reasoning about their characters stays cheap.

  /** Codes of the move rules. */
  const MoveCodes: seq<string> := [
    "not_your_turn",
    "piece_not_found",
    "piece_captured",
    "piece_offboard",
    "must_complete_psychic_gateway",
    "piece_immobilized",
    "not_your_piece",
    "mismatch_from",
    "out_of_bounds",
    "cannot_capture_ally",
    "cannot_capture_king",
    "unstable_capture_restricted_" + "to_larva_or_doppelganger",
    "gateway_capture_restricted_to_larva",
    "target_camouflaged",
    "unstable_must_step_one_square_diagonal",
    "illegal_move",
    "echo_declaration_required",
    "echo_move_mismatch",
    "fearful_terrain_insufficient_de",
    "king_in_check",
    "must_complete_unstable_form"
  ]

  /** Codes of the promotion step. */
  const PromotionCodes: seq<string> := [
    "not_larva",
    "no_promotion_pending",
    "invalid_summon_type",
    "need_three_positions",
    "must_be_on_start_row",
    "square_occupied"
  ]

  /** Codes of the match as a whole. */
  const MatchCodes: seq<string> := [
    "time_forfeit",
    "match_already_finished",
    "not_eligible"
  ]

  /** Codes of the abilities framework and its handlers. */
  const AbilityCodes: seq<string> := [
    "abilities_disabled_in_calm",
    "ability_blocked_by_field_of_fear",
    "insufficient_de",
    "unknown_ability",
    "wrong_piece_type",
    "missing_target",
    "target_not_found",
    "no_piece_at_target",
    "invalid_target",
    "target_captured",
    "target_is_ally",
    "not_adjacent",
    "movement_unknown",
    "illegal_destination",
    "must_land_on_empty",
    "blocked_by_enemy",
    "cannot_capture_during_swap",
    "must_be_horizontally_adjacent",
    "no_captured_larva_available",
    "cannot_copy_king",
    "cannot_capture_sleepless_or_" + "matriarch_with_terror_leap"
  ]

  /** Buckets only the client produces, for its heuristics. */
  const ClientCodes: seq<string> := [
    "ability_failed",
    "connection_error",
    "piece_not_owned",
    "target_invalid",
    "move_blocked",
    "match_not_found",
    "unknown"
  ]

  /** `KNOWN_CODES`, in declaration order (the order the substring scan follows). */
  const KnownCodes: seq<string> := MoveCodes + PromotionCodes + MatchCodes + AbilityCodes + ClientCodes

  const Unknown := "unknown"
  const TargetInvalid := "target_invalid"

  /** A code that begins and ends with a lower-case letter. */
  predicate LetterEnds(c: string) {
    |c| >= 1 && 'a' <= c[0] <= 'z' && 'a' <= c[|c| - 1] <= 'z'
  }

  lemma MoveCodesEndInLetters()
    ensures forall c :: c in MoveCodes ==> LetterEnds(c)
  {
    assert forall i :: 0 <= i < 11 ==> LetterEnds(MoveCodes[i]);
    assert forall i :: 11 <= i < |MoveCodes| ==> LetterEnds(MoveCodes[i]);
  }

  lemma PromotionCodesEndInLetters()
    ensures forall c :: c in PromotionCodes ==> LetterEnds(c)
  {
  }

  lemma MatchCodesEndInLetters()
    ensures forall c :: c in MatchCodes ==> LetterEnds(c)
  {
  }

  lemma AbilityCodesEndInLetters()
    ensures forall c :: c in AbilityCodes ==> LetterEnds(c)
  {
    assert forall i :: 0 <= i < 10 ==> LetterEnds(AbilityCodes[i]);
    assert forall i :: 10 <= i < |AbilityCodes| ==> LetterEnds(AbilityCodes[i]);
  }

  lemma ClientCodesEndInLetters()
    ensures forall c :: c in ClientCodes ==> LetterEnds(c)
  {
  }

  lemma KnownCodesEndInLetters()
    ensures forall c :: c in KnownCodes ==> LetterEnds(c)
  {
    MoveCodesEndInLetters();
    PromotionCodesEndInLetters();
    MatchCodesEndInLetters();
    AbilityCodesEndInLetters();
    ClientCodesEndInLetters();
  }

  // ---------------------------------------------------------------------
  // parseMatchError
  // ---------------------------------------------------------------------

  /** The input after `(raw || "").toString().trim().toLowerCase()`. */
  function Normalize(raw: Option<string>): (s: string)
    ensures raw.None? ==> s == ""
    ensures raw.Some? ==> s == Lower(Trim(raw.value))
  {
    match raw
    case None => ""
    case Some(v) => Lower(Trim(v))
  }

  /** Entry `k` of `codes` is the first, skipping "unknown", that occurs in `s`. */
  predicate FirstContained(codes: seq<string>, s: string, k: int) {
    0 <= k < |codes| && codes[k] != Unknown && Contains(s, codes[k])
    && forall j :: 0 <= j < k ==> codes[j] == Unknown || !Contains(s, codes[j])
  }

  /** No entry of `codes` other than "unknown" occurs in `s`. */
  predicate NoneContained(codes: seq<string>, s: string) {
    forall j :: 0 <= j < |codes| ==> codes[j] == Unknown || !Contains(s, codes[j])
  }

  /** The `for (const code of KNOWN_CODES)` scan, from index `i` on. */
  function ScanCodes(codes: seq<string>, s: string, i: nat): (r: Option<nat>)
    requires i <= |codes|
    requires forall j :: 0 <= j < i ==> codes[j] == Unknown || !Contains(s, codes[j])
    ensures r.Some? ==> FirstContained(codes, s, r.value)
    ensures r.None? ==> NoneContained(codes, s)
    decreases |codes| - i
  {
    if i == |codes| then None
    else if codes[i] != Unknown && Contains(s, codes[i]) then Some(i)
    else ScanCodes(codes, s, i + 1)
  }

  /** At most one index is the first contained code. */
  lemma FirstContainedUnique(codes: seq<string>, s: string, k: int)
    requires FirstContained(codes, s, k)
    ensures forall m :: FirstContained(codes, s, m) ==> m == k
    ensures !NoneContained(codes, s)
  {
  }

  /** The codes the heuristics can produce. */
  const HeuristicCodes: seq<string> :=
    ["not_your_turn", "illegal_move", "ability_failed", "piece_not_owned", "piece_not_found", TargetInvalid,
     "move_blocked", "match_not_found", "connection_error", Unknown]

  /** The free-text heuristics, tried in their fixed order. */
  function Heuristic(s: string): (r: string)
    ensures r == Unknown <==>
              !Contains(s, "not your turn") && !Contains(s, "illegal") && !Contains(s, "invalid move")
              && !Contains(s, "ability") && !Contains(s, "not owner") && !Contains(s, "not your piece")
              && !(Contains(s, "not found") && Contains(s, "piece")) && !Contains(s, "invalid target")
              && !Contains(s, "target") && !Contains(s, "blocked") && !Contains(s, "path")
              && !Contains(s, "match not found") && !Contains(s, "network") && !Contains(s, "socket")
              && !Contains(s, "connection")
    ensures r in HeuristicCodes
  {
    if Contains(s, "not your turn") then "not_your_turn"
    else if Contains(s, "illegal") || Contains(s, "invalid move") then "illegal_move"
    else if Contains(s, "ability") then "ability_failed"
    else if Contains(s, "not owner") || Contains(s, "not your piece") then "piece_not_owned"
    else if Contains(s, "not found") && Contains(s, "piece") then "piece_not_found"
    else if Contains(s, "invalid target") || Contains(s, "target") then TargetInvalid
    else if Contains(s, "blocked") || Contains(s, "path") then "move_blocked"
    else if Contains(s, "match not found") then "match_not_found"
    else if Contains(s, "network") || Contains(s, "socket") || Contains(s, "connection") then "connection_error"
    else Unknown
  }

  lemma HeuristicCodesKnown()
    ensures forall c :: c in HeuristicCodes ==> c in KnownCodes
  {
    assert forall c :: c in HeuristicCodes ==> c in ClientCodes || c in MoveCodes;
  }

  /** `parseMatchError(raw)`: an exact code, else the first code contained, else the heuristics. */
  function ParseMatchError(raw: Option<string>): (r: string)
    ensures r in KnownCodes
    ensures Normalize(raw) in KnownCodes ==> r == Normalize(raw)
    ensures Normalize(raw) !in KnownCodes ==>
              (forall k :: FirstContained(KnownCodes, Normalize(raw), k) ==> r == KnownCodes[k])
              && (NoneContained(KnownCodes, Normalize(raw)) ==> r == Heuristic(Normalize(raw)))
  {
    var s := Normalize(raw);
    if s in KnownCodes then s
    else match ScanCodes(KnownCodes, s, 0)
      case Some(k) =>
        FirstContainedUnique(KnownCodes, s, k);
        KnownCodes[k]
      case None =>
        HeuristicCodesKnown();
        Heuristic(s)
  }

  /** No upper-case letter anywhere. */
  predicate NoUpper(c: string) {
    forall i :: 0 <= i < |c| ==> !IsUpperAscii(c[i])
  }

  lemma HeuristicCodesLowerCase()
    ensures forall c :: c in HeuristicCodes ==> NoUpper(c)
  {
    assert forall i :: 0 <= i < 5 ==> NoUpper(HeuristicCodes[i]);
    assert forall i :: 5 <= i < |HeuristicCodes| ==> NoUpper(HeuristicCodes[i]);
  }

  /** A piece of a string without upper case has none either. */
  lemma ContainedNoUpper(s: string, sub: string)
    requires NoUpper(s) && Contains(s, sub)
    ensures NoUpper(sub)
  {
    ContainsIffOccurs(s, sub);
    var k :| OccursAt(s, sub, k);
    forall i | 0 <= i < |sub|
      ensures !IsUpperAscii(sub[i])
    {
      assert sub[i] == s[k + i];
    }
  }

  /** A lower-case string with letters at both ends is its own normal form. */
  lemma NormalWhenLowerWithLetterEnds(c: string)
    requires NoUpper(c) && LetterEnds(c)
    ensures Normalize(Some(c)) == c
  {
    TrimIdentity(c);
    LowerIdentity(c);
  }

  /** A normalised string normalises to itself. */
  lemma NormalizeIdempotent(raw: Option<string>)
    ensures Normalize(Some(Normalize(raw))) == Normalize(raw)
  {
    if raw.Some? {
      var t := Trim(raw.value);
      var s := Lower(t);
      if |s| > 0 {
        LowerKeepsWhitespace(t[0]);
        LowerKeepsWhitespace(t[|t| - 1]);
      }
      TrimIdentity(s);
      LowerIdempotent(t);
    }
  }

  /** Parsing a parsed code gives it back: the parser is idempotent. */
  lemma ParseIdempotent(raw: Option<string>)
    ensures ParseMatchError(Some(ParseMatchError(raw))) == ParseMatchError(raw)
  {
    var s := Normalize(raw);
    var r := ParseMatchError(raw);
    KnownCodesEndInLetters();
    if s in KnownCodes {
      NormalizeIdempotent(raw);
    } else {
      match ScanCodes(KnownCodes, s, 0)
      case Some(k) =>
        FirstContainedUnique(KnownCodes, s, k);
        assert NoUpper(s);
        ContainedNoUpper(s, r);
        NormalWhenLowerWithLetterEnds(r);
      case None =>
        HeuristicCodesKnown();
        HeuristicCodesLowerCase();
        NormalWhenLowerWithLetterEnds(r);
    }
  }

  /** A missing or blank input is "unknown". */
  lemma BlankIsUnknown(raw: Option<string>)
    requires raw.None? || Trim(raw.value) == ""
    ensures ParseMatchError(raw) == Unknown
  {
    assert Normalize(raw) == "";
    KnownCodesEndInLetters();
    assert "" !in KnownCodes;
    forall j | 0 <= j < |KnownCodes|
      ensures !Contains("", KnownCodes[j])
    {
      EmptyContainsOnlyEmpty(KnownCodes[j]);
    }
    EmptyContainsOnlyEmpty("not your turn");
    EmptyContainsOnlyEmpty("illegal");
    EmptyContainsOnlyEmpty("invalid move");
    EmptyContainsOnlyEmpty("ability");
    EmptyContainsOnlyEmpty("not owner");
    EmptyContainsOnlyEmpty("not your piece");
    EmptyContainsOnlyEmpty("not found");
    EmptyContainsOnlyEmpty("invalid target");
    EmptyContainsOnlyEmpty("target");
    EmptyContainsOnlyEmpty("blocked");
    EmptyContainsOnlyEmpty("path");
    EmptyContainsOnlyEmpty("match not found");
    EmptyContainsOnlyEmpty("network");
    EmptyContainsOnlyEmpty("socket");
    EmptyContainsOnlyEmpty("connection");
  }

  // ---------------------------------------------------------------------
  // getFriendlyError
  // ---------------------------------------------------------------------

  datatype Level = Warning | Error

  /** What `getFriendlyError` shows: a title and a severity (the description sentence is left out). */
  datatype Friendly = Friendly(title: string, level: Level)

  /** One arm of the `switch`: the codes of its `case` labels and the message they share. */
  datatype Entry = Entry(codes: seq<string>, message: Friendly)

  /** Codes that share one arm of the `switch`. */
  const PieceMissingAliases := ["piece_not_found", "piece_captured"]
  const NotYourPieceAliases := ["not_your_piece", "piece_not_owned"]
  const InvalidTargetAliases := ["missing_target", "target_not_found", "no_piece_at_target", "invalid_target"]

  /** The `default` arm. */
  const DefaultMessage :=
    Friendly("Action failed", Error)

  /** Entries for the move rules. */
  const MoveMessages: seq<Entry> := [
    Entry(["not_your_turn"],
          Friendly("Not your turn", Warning)),
    Entry(PieceMissingAliases,
          Friendly("Piece missing", Error)),
    Entry(["piece_offboard"],
          Friendly("Piece off the board", Error)),
    Entry(["must_complete_psychic_gateway"],
          Friendly("Complete Psychic Gateway", Warning)),
    Entry(["piece_immobilized"],
          Friendly("Immobilized", Warning)),
    Entry(NotYourPieceAliases,
          Friendly("Not your piece", Error)),
    Entry(["mismatch_from"],
          Friendly("Position mismatch", Warning)),
    Entry(["out_of_bounds"],
          Friendly("Out of bounds", Warning)),
    Entry(["cannot_capture_ally"],
          Friendly("Can\U{2019}t capture ally", Warning)),
    Entry(["cannot_capture_king"],
          Friendly("King cannot be captured", Warning)),
    Entry(["unstable_capture_restricted_" + "to_larva_or_doppelganger"],
          Friendly("Unstable capture restricted", Warning)),
    Entry(["gateway_capture_restricted_to_larva"],
          Friendly("Gateway restriction", Warning)),
    Entry(["target_camouflaged"],
          Friendly("Camouflaged", Warning)),
    Entry(["unstable_must_step_one_square_diagonal"],
          Friendly("Unstable step required", Warning)),
    Entry(["illegal_move"],
          Friendly("Illegal move", Warning)),
    Entry(["echo_declaration_required"],
          Friendly("Echo not declared", Warning)),
    Entry(["echo_move_mismatch"],
          Friendly("Echo mismatch", Warning)),
    Entry(["fearful_terrain_insufficient_de"],
          Friendly("Need more Dream Energy", Warning)),
    Entry(["king_in_check"],
          Friendly("King safety", Warning)),
    Entry(["must_complete_unstable_form"],
          Friendly("Complete Unstable Form", Warning))
  ]

  /** Entries for the promotion step. */
  const PromotionMessages: seq<Entry> := [
    Entry(["not_larva"],
          Friendly("Promotion requires a Larva", Warning)),
    Entry(["no_promotion_pending"],
          Friendly("No promotion pending", Warning)),
    Entry(["invalid_summon_type"],
          Friendly("Invalid summon", Warning)),
    Entry(["need_three_positions"],
          Friendly("Three positions required", Warning)),
    Entry(["must_be_on_start_row"],
          Friendly("Must be on starting row", Warning)),
    Entry(["square_occupied"],
          Friendly("Square occupied", Warning))
  ]

  /** Entries for the match as a whole. */
  const MatchMessages: seq<Entry> := [
    Entry(["time_forfeit"],
          Friendly("Time forfeited", Error)),
    Entry(["match_already_finished"],
          Friendly("Match already finished", Error)),
    Entry(["not_eligible"],
          Friendly("Not eligible", Error))
  ]

  /** Entries for the abilities. */
  const AbilityMessages: seq<Entry> := [
    Entry(["abilities_disabled_in_calm"],
          Friendly("Abilities disabled", Warning)),
    Entry(["ability_blocked_by_field_of_fear"],
          Friendly("Blocked by Field of Fear", Warning)),
    Entry(["insufficient_de"],
          Friendly("Need more Dream Energy", Warning)),
    Entry(["unknown_ability"],
          Friendly("Unknown ability", Error)),
    Entry(["wrong_piece_type"],
          Friendly("Wrong piece", Warning)),
    Entry(InvalidTargetAliases,
          Friendly("Invalid target", Warning)),
    Entry(["target_captured"],
          Friendly("Target captured", Warning)),
    Entry(["target_is_ally"],
          Friendly("Ally target", Warning)),
    Entry(["not_adjacent"],
          Friendly("Not adjacent", Warning)),
    Entry(["movement_unknown"],
          Friendly("Cannot mimic movement", Warning)),
    Entry(["illegal_destination"],
          Friendly("Illegal destination", Warning)),
    Entry(["must_land_on_empty"],
          Friendly("Destination must be empty", Warning)),
    Entry(["blocked_by_enemy"],
          Friendly("Path blocked by enemy", Warning)),
    Entry(["cannot_capture_during_swap"],
          Friendly("Cannot capture during swap", Warning)),
    Entry(["must_be_horizontally_adjacent"],
          Friendly("Must be horizontally adjacent", Warning)),
    Entry(["no_captured_larva_available"],
          Friendly("No Larva to resurrect", Warning)),
    Entry(["cannot_copy_king"],
          Friendly("Cannot copy the king", Warning)),
    Entry(["cannot_capture_sleepless_or_" + "matriarch_with_terror_leap"],
          Friendly("Capture not allowed", Warning))
  ]

  /** Entries for the client-only buckets. */
  const ClientMessages: seq<Entry> := [
    Entry(["ability_failed"],
          Friendly("Ability unavailable", Warning)),
    Entry(["match_not_found"],
          Friendly("Match not found", Error)),
    Entry(["connection_error"],
          Friendly("Connection issue", Error)),
    Entry(["move_blocked"],
          Friendly("Path blocked", Warning))
  ]

  /** The arms of the `switch`, in order. */
  const FriendlyTable: seq<Entry> := MoveMessages + PromotionMessages + MatchMessages + AbilityMessages + ClientMessages

  /** Entry `i` is the first whose labels hold `code`. */
  predicate FirstEntry(table: seq<Entry>, code: string, i: int) {
    0 <= i < |table| && code in table[i].codes && forall j :: 0 <= j < i ==> code !in table[j].codes
  }

  /** Dispatch on `code`: the first arm that lists it, else the default. */
  function Lookup(table: seq<Entry>, code: string): (r: Friendly)
    ensures (forall i :: 0 <= i < |table| ==> code !in table[i].codes) ==> r == DefaultMessage
    ensures forall i :: FirstEntry(table, code, i) ==> r == table[i].message
    decreases |table|
  {
    if |table| == 0 then DefaultMessage
    else if code in table[0].codes then table[0].message
    else
      var r := Lookup(table[1..], code);
      assert forall i :: FirstEntry(table, code, i) ==> i >= 1 && FirstEntry(table[1..], code, i - 1);
      r
  }

  /** Arms ahead of the one that lists `code` are skipped when none of them lists it. */
  lemma LookupSkips(a: seq<Entry>, b: seq<Entry>, code: string)
    requires forall e :: e in a ==> code !in e.codes
    ensures Lookup(a + b, code) == Lookup(b, code)
  {
    var t := a + b;
    if forall i :: 0 <= i < |b| ==> code !in b[i].codes {
      assert forall i :: 0 <= i < |t| ==> code !in t[i].codes by {
        forall i | 0 <= i < |t|
          ensures code !in t[i].codes
        {
          if i < |a| { assert t[i] in a; } else { assert t[i] == b[i - |a|]; }
        }
      }
    } else {
      var k :| 0 <= k < |b| && code in b[k].codes && forall j :: 0 <= j < k ==> code !in b[j].codes
        by { FirstOf(b, code); }
      assert FirstEntry(t, code, |a| + k) by {
        forall j | 0 <= j < |a| + k
          ensures code !in t[j].codes
        {
          if j < |a| { assert t[j] in a; } else { assert t[j] == b[j - |a|]; }
        }
      }
      assert FirstEntry(b, code, k);
    }
  }

  /** When some arm lists `code`, there is a first one. */
  lemma {:induction false} FirstOf(table: seq<Entry>, code: string)
    requires exists i :: 0 <= i < |table| && code in table[i].codes
    ensures exists k :: FirstEntry(table, code, k)
    decreases |table|
  {
    if code in table[0].codes {
      assert FirstEntry(table, code, 0);
    } else {
      var i :| 0 <= i < |table| && code in table[i].codes;
      assert table[1..][i - 1] == table[i];
      FirstOf(table[1..], code);
      var k :| FirstEntry(table[1..], code, k);
      assert FirstEntry(table, code, k + 1);
    }
  }

  /** `getFriendlyError(code)`: the message of the first arm that lists the code, else the default. */
  function GetFriendlyError(code: string): (r: Friendly)
    ensures (forall i :: 0 <= i < |FriendlyTable| ==> code !in FriendlyTable[i].codes) ==> r == DefaultMessage
    ensures forall i :: FirstEntry(FriendlyTable, code, i) ==> r == FriendlyTable[i].message
  {
    Lookup(FriendlyTable, code)
  }

  /** No arm of `entries` lists any of `cs`. */
  predicate ListsNone(entries: seq<Entry>, cs: seq<string>) {
    forall i, j :: 0 <= i < |entries| && 0 <= j < |cs| ==> cs[j] !in entries[i].codes
  }

  lemma ListsNoneAppend(a: seq<Entry>, b: seq<Entry>, cs: seq<string>)
    requires ListsNone(a, cs) && ListsNone(b, cs)
    ensures ListsNone(a + b, cs)
  {
    forall i, j | 0 <= i < |a + b| && 0 <= j < |cs|
      ensures cs[j] !in (a + b)[i].codes
    {
      if i >= |a| { assert (a + b)[i] == b[i - |a|]; }
    }
  }

  /** The codes that fall to the `default` arm. */
  const DefaultCodes := [Unknown, TargetInvalid]

  lemma MoveArmsSkip()
    ensures ListsNone(MoveMessages, DefaultCodes) && ListsNone(MoveMessages, InvalidTargetAliases)
  {
    var a, b := MoveMessages[..10], MoveMessages[10..];
    assert a + b == MoveMessages;
    MoveArmsSkipFront();
    MoveArmsSkipBack();
    ListsNoneAppend(a, b, DefaultCodes);
    ListsNoneAppend(a, b, InvalidTargetAliases);
  }

  lemma MoveArmsSkipFront()
    ensures ListsNone(MoveMessages[..10], DefaultCodes) && ListsNone(MoveMessages[..10], InvalidTargetAliases)
  {
  }

  lemma MoveArmsSkipBack()
    ensures ListsNone(MoveMessages[10..], DefaultCodes) && ListsNone(MoveMessages[10..], InvalidTargetAliases)
  {
  }

  lemma PromotionAndMatchArmsSkip()
    ensures ListsNone(PromotionMessages, DefaultCodes) && ListsNone(PromotionMessages, InvalidTargetAliases)
    ensures ListsNone(MatchMessages, DefaultCodes) && ListsNone(MatchMessages, InvalidTargetAliases)
  {
  }

  lemma AbilityArmsSkip()
    ensures ListsNone(AbilityMessages, DefaultCodes)
    ensures ListsNone(AbilityMessages[..5], InvalidTargetAliases)
  {
    var a, b := AbilityMessages[..9], AbilityMessages[9..];
    assert a + b == AbilityMessages;
    AbilityArmsSkipFront();
    AbilityArmsSkipBack();
    ListsNoneAppend(a, b, DefaultCodes);
  }

  lemma AbilityArmsSkipFront()
    ensures ListsNone(AbilityMessages[..9], DefaultCodes) && ListsNone(AbilityMessages[..5], InvalidTargetAliases)
  {
  }

  lemma AbilityArmsSkipBack()
    ensures ListsNone(AbilityMessages[9..], DefaultCodes)
  {
  }

  lemma ClientArmsSkip()
    ensures ListsNone(ClientMessages, DefaultCodes)
  {
  }

  /** The defaults are listed by no arm. */
  lemma DefaultsUnlisted()
    ensures ListsNone(FriendlyTable, DefaultCodes)
  {
    MoveArmsSkip();
    PromotionAndMatchArmsSkip();
    AbilityArmsSkip();
    ClientArmsSkip();
    ListsNoneAppend(MoveMessages, PromotionMessages, DefaultCodes);
    ListsNoneAppend(MoveMessages + PromotionMessages, MatchMessages, DefaultCodes);
    ListsNoneAppend(MoveMessages + PromotionMessages + MatchMessages, AbilityMessages, DefaultCodes);
    ListsNoneAppend(MoveMessages + PromotionMessages + MatchMessages + AbilityMessages, ClientMessages, DefaultCodes);
  }

  /** "unknown" and "target_invalid" have no arm of their own: they get the default message. */
  lemma DefaultCodesFallThrough(code: string)
    requires code == Unknown || code == TargetInvalid
    ensures GetFriendlyError(code) == DefaultMessage
  {
    DefaultsUnlisted();
    assert code == DefaultCodes[if code == Unknown then 0 else 1];
  }

  /** The codes of arm `k` of `table` are listed by no earlier arm, so each of them selects arm `k`. */
  lemma ArmSelected(table: seq<Entry>, k: int)
    requires 0 <= k < |table| && ListsNone(table[..k], table[k].codes)
    ensures forall c :: c in table[k].codes ==> Lookup(table, c) == table[k].message
  {
    forall c | c in table[k].codes
      ensures Lookup(table, c) == table[k].message
    {
      var m :| 0 <= m < |table[k].codes| && table[k].codes[m] == c;
      forall j | 0 <= j < k
        ensures c !in table[j].codes
      {
        assert table[..k][j] == table[j];
      }
      assert FirstEntry(table, c, k);
    }
  }

  /** The second arm holds the piece-missing aliases. */
  lemma PieceMissingArm()
    ensures forall c :: c in PieceMissingAliases ==> GetFriendlyError(c) == MoveMessages[1].message
  {
    var t := FriendlyTable;
    assert t[..1] == MoveMessages[..1] && t[1] == MoveMessages[1];
    ArmSelected(t, 1);
  }

  /** The sixth arm holds the not-your-piece aliases. */
  lemma NotYourPieceArm()
    ensures forall c :: c in NotYourPieceAliases ==> GetFriendlyError(c) == MoveMessages[5].message
  {
    var t := FriendlyTable;
    assert t[..5] == MoveMessages[..5] && t[5] == MoveMessages[5];
    ArmSelected(t, 5);
  }

  /** The four invalid-target codes select the sixth ability arm. */
  lemma InvalidTargetArm()
    ensures forall c :: c in InvalidTargetAliases ==> GetFriendlyError(c) == AbilityMessages[5].message
  {
    var front := MoveMessages + PromotionMessages + MatchMessages;
    MoveArmsSkip();
    PromotionAndMatchArmsSkip();
    AbilityArmsSkip();
    ListsNoneAppend(MoveMessages, PromotionMessages, InvalidTargetAliases);
    ListsNoneAppend(MoveMessages + PromotionMessages, MatchMessages, InvalidTargetAliases);
    ListsNoneAppend(front, AbilityMessages[..5], InvalidTargetAliases);
    var t := FriendlyTable;
    var k := |front| + 5;
    assert t[..k] == front + AbilityMessages[..5];
    assert t[k] == AbilityMessages[5];
    ArmSelected(t, k);
  }

  /** Aliases share one message: all of an alias group get the same answer. */
  lemma AliasesShareMessages(c: string, d: string)
    requires (c in PieceMissingAliases && d in PieceMissingAliases)
             || (c in NotYourPieceAliases && d in NotYourPieceAliases)
             || (c in InvalidTargetAliases && d in InvalidTargetAliases)
    ensures GetFriendlyError(c) == GetFriendlyError(d)
  {
    PieceMissingArm();
    NotYourPieceArm();
    InvalidTargetArm();
  }
}
