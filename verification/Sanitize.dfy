/** The sanitising of exchange payloads before they are logged. */
module Sanitize {
  import opened Tables

  datatype Json =
    | Undefined | Null | Bool(b: bool) | Num(n: real) | Str(s: string)
    | Arr(items: seq<Json>) | Obj(entries: seq<Entry>)

  datatype Entry = Entry(key: string, value: Json)

  const MAX_DEPTH := 3
  const MAX_ITEMS := 20
  const TRIMMED := Str("[Trimmed]")
  const REDACTED := Str("[REDACTED]")
  const OMITTED := Str("[OMITTED]")
  const SENSITIVE := ["apikey", "api_key", "apisecret", "secret", "signature", "password"]

  function LowerChar(c: char): char {
    if 'A' <= c <= 'Z' then ((c as int) - ('A' as int) + ('a' as int)) as char else c
  }

  function Lower(s: string): string {
    if s == "" then "" else [LowerChar(s[0])] + Lower(s[1..])
  }

  /** `s.includes(word)` */
  predicate Includes(s: string, word: string) {
    |word| <= |s| && (s[..|word|] == word || (s != "" && Includes(s[1..], word)))
  }

  predicate IsSensitive(key: string) {
    exists w <- SENSITIVE :: Includes(Lower(key), w)
  }

  /** The fixed marker that replaces the value of a key, if its value is not looked into. */
  datatype Treatment = Redact | Omit | Descend

  function TreatmentOf(key: string): Treatment {
    if IsSensitive(key) then Redact else if Lower(key) == "headers" then Omit else Descend
  }

  function FirstItems(items: seq<Json>): (kept: seq<Json>) {
    if |items| > MAX_ITEMS then items[..MAX_ITEMS] else items
  }

  /** `sanitize` */
  function Sanitized(data: Json, depth: int): Json
    decreases data
  {
    if depth > MAX_DEPTH then TRIMMED
    else
      match data
      case Arr(items) => Arr(SanitizedItems(FirstItems(items), depth + 1))
      case Obj(entries) => Obj(SanitizedEntries(entries, depth + 1))
      case _ => data
  }

  function SanitizedItems(items: seq<Json>, depth: int): (r: seq<Json>)
    ensures |r| == |items| && forall i :: 0 <= i < |items| ==> r[i] == Sanitized(items[i], depth)
    decreases items
  {
    if items == [] then [] else [Sanitized(items[0], depth)] + SanitizedItems(items[1..], depth)
  }

  function SanitizedEntries(entries: seq<Entry>, depth: int): (r: seq<Entry>)
    ensures |r| == |entries| && forall i :: 0 <= i < |entries| ==> r[i] == SanitizedEntry(entries[i], depth)
    decreases entries
  {
    if entries == [] then [] else [SanitizedEntry(entries[0], depth)] + SanitizedEntries(entries[1..], depth)
  }

  function SanitizedEntry(e: Entry, depth: int): Entry
    decreases e
  {
    Entry(e.key,
          match TreatmentOf(e.key)
          case Redact => REDACTED
          case Omit => OMITTED
          case Descend => Sanitized(e.value, depth))
  }

  // ------------------------------------------------------------------
  // What may be logged, in terms of the characters of the keys
  // ------------------------------------------------------------------

  /** The character, or its lower case if it is an upper-case letter. */
  predicate SameLetter(c: char, lower: char) {
    if 'A' <= c <= 'Z' then 'a' <= lower <= 'z' && c as int - 'A' as int == lower as int - 'a' as int else c == lower
  }

  ghost predicate SameText(s: string, lower: string) {
    |s| == |lower| && forall k :: 0 <= k < |s| ==> SameLetter(s[k], lower[k])
  }

  ghost predicate MentionsAt(key: string, word: string, i: nat) {
    i + |word| <= |key| && SameText(key[i..i + |word|], word)
  }

  /** The key contains the word, in any case. */
  ghost predicate Mentions(key: string, word: string) {
    exists i :: MentionsAt(key, word, i)
  }

  ghost predicate MentionsSecret(key: string) {
    || Mentions(key, "apikey") || Mentions(key, "api_key") || Mentions(key, "apisecret")
    || Mentions(key, "secret") || Mentions(key, "signature") || Mentions(key, "password")
  }

  /** The key's value is not to be seen. */
  ghost predicate Hidden(key: string) {
    MentionsSecret(key) || SameText(key, "headers")
  }

  /** What may be logged at a depth: at most twenty items of an array, nothing but the marker below the third
      level, and nothing but a marker under a key that mentions a secret or names the headers. */
  ghost predicate Clean(data: Json, depth: int)
    decreases data
  {
    if depth > 3 then data == Str("[Trimmed]")
    else
      match data
      case Arr(items) => |items| <= 20 && forall x <- items :: Clean(x, depth + 1)
      case Obj(entries) => forall e <- entries :: CleanEntry(e, depth + 1)
      case _ => true
  }

  ghost predicate CleanEntry(e: Entry, depth: int)
    decreases e
  {
    if MentionsSecret(e.key) then e.value == Str("[REDACTED]")
    else if SameText(e.key, "headers") then e.value == Str("[OMITTED]")
    else Clean(e.value, depth)
  }

  lemma {:induction false} LowerIsSameText(s: string)
    ensures SameText(s, Lower(s))
  {
    if s != "" {
      LowerIsSameText(s[1..]);
      forall k | 0 <= k < |s|
        ensures SameLetter(s[k], Lower(s)[k])
      {
        assert k > 0 ==> SameLetter(s[1..][k - 1], Lower(s[1..])[k - 1]);
      }
    }
  }

  lemma SameTextIsUnique(s: string, a: string, b: string)
    requires SameText(s, a)
    ensures SameText(s, b) <==> a == b
  {
    if SameText(s, b) {
      assert forall k :: 0 <= k < |s| ==> SameLetter(s[k], a[k]) && SameLetter(s[k], b[k]) && a[k] == b[k];
    }
  }

  lemma {:induction false} MentionsIff(key: string, word: string)
    ensures Includes(Lower(key), word) <==> Mentions(key, word)
  {
    LowerIsSameText(key);
    if |word| <= |key| {
      StartsIff(key, word);
      if key != "" {
        MentionsIff(key[1..], word);
        MentionsLater(key, word);
      }
    }
  }

  lemma StartsIff(key: string, word: string)
    requires |word| <= |key| && SameText(key, Lower(key))
    ensures Lower(key)[..|word|] == word <==> MentionsAt(key, word, 0)
  {
    var start, lower := key[..|word|], Lower(key)[..|word|];
    assert forall k :: 0 <= k < |start| ==> start[k] == key[k] && lower[k] == Lower(key)[k];
    assert SameText(start, lower) && key[0..0 + |word|] == start;
    SameTextIsUnique(start, lower, word);
  }

  lemma MentionsLater(key: string, word: string)
    requires key != ""
    ensures Mentions(key, word) <==> MentionsAt(key, word, 0) || Mentions(key[1..], word)
  {
    if i: nat :| MentionsAt(key[1..], word, i) {
      assert key[1..][i..i + |word|] == key[i + 1..i + 1 + |word|];
      assert MentionsAt(key, word, i + 1);
    }
    if i: nat :| MentionsAt(key, word, i) && i > 0 {
      assert key[1..][i - 1..i - 1 + |word|] == key[i..i + |word|];
      assert MentionsAt(key[1..], word, i - 1);
    }
  }

  /** Which keys have their value replaced, and by which marker. */
  lemma TreatmentIff(key: string)
    ensures TreatmentOf(key) == Redact <==> MentionsSecret(key)
    ensures TreatmentOf(key) == Omit <==> !MentionsSecret(key) && SameText(key, "headers")
  {
    MentionsIff(key, "apikey");
    MentionsIff(key, "api_key");
    MentionsIff(key, "apisecret");
    MentionsIff(key, "secret");
    MentionsIff(key, "signature");
    MentionsIff(key, "password");
    LowerIsSameText(key);
    SameTextIsUnique(key, Lower(key), "headers");
  }

  /** Main result: whatever comes in, what goes out is clean. */
  lemma {:induction false} SanitizedIsClean(data: Json, depth: int)
    ensures Clean(Sanitized(data, depth), depth)
    decreases data
  {
    if depth <= MAX_DEPTH {
      match data
      case Arr(items) =>
        var kept := FirstItems(items);
        forall i | 0 <= i < |kept|
          ensures Clean(Sanitized(kept[i], depth + 1), depth + 1)
        {
          assert kept[i] == items[i];
          SanitizedIsClean(items[i], depth + 1);
        }
      case Obj(entries) =>
        forall i | 0 <= i < |entries|
          ensures CleanEntry(SanitizedEntry(entries[i], depth + 1), depth + 1)
        {
          TreatmentIff(entries[i].key);
          SanitizedIsClean(entries[i].value, depth + 1);
        }
      case _ =>
    }
  }

  lemma {:induction false} CleanStays(data: Json, depth: int)
    requires Clean(data, depth)
    ensures Sanitized(data, depth) == data
    decreases data
  {
    if depth <= MAX_DEPTH {
      match data
      case Arr(items) =>
        forall i | 0 <= i < |items|
          ensures Sanitized(items[i], depth + 1) == items[i]
        {
          assert items[i] in items;
          CleanStays(items[i], depth + 1);
        }
        assert SanitizedItems(items, depth + 1) == items;
      case Obj(entries) =>
        var r := SanitizedEntries(entries, depth + 1);
        forall i | 0 <= i < |entries|
          ensures r[i] == entries[i]
        {
          assert entries[i] in entries;
          TreatmentIff(entries[i].key);
          if TreatmentOf(entries[i].key) == Descend {
            CleanStays(entries[i].value, depth + 1);
          }
        }
        assert r == entries;
      case _ =>
    }
  }

  /** Main result: the clean payloads are exactly those that sanitising leaves alone. */
  lemma FixedPointsAreClean(data: Json, depth: int)
    ensures Sanitized(data, depth) == data <==> Clean(data, depth)
  {
    SanitizedIsClean(data, depth);
    if Clean(data, depth) {
      CleanStays(data, depth);
    }
  }

  /** Sanitising twice at the same depth is sanitising once. */
  lemma SanitisingIsIdempotent(data: Json, depth: int)
    ensures Sanitized(Sanitized(data, depth), depth) == Sanitized(data, depth)
  {
    SanitizedIsClean(data, depth);
    CleanStays(Sanitized(data, depth), depth);
  }

  /** How deeply arrays and objects are nested. */
  function Nesting(data: Json): (n: nat)
    ensures data.Arr? ==> n > 0 && forall x <- data.items :: Nesting(x) < n
    ensures data.Obj? ==> n > 0 && forall e <- data.entries :: Nesting(e.value) < n
    decreases data
  {
    match data
    case Arr(items) => 1 + ItemsNesting(items)
    case Obj(entries) => 1 + EntriesNesting(entries)
    case _ => 0
  }

  function ItemsNesting(items: seq<Json>): (n: nat)
    ensures forall x <- items :: Nesting(x) <= n
    decreases items
  {
    if items == [] then 0
    else
      var head, rest := Nesting(items[0]), ItemsNesting(items[1..]);
      if head >= rest then head else rest
  }

  function EntriesNesting(entries: seq<Entry>): (n: nat)
    ensures forall e <- entries :: Nesting(e.value) <= n
    decreases entries
  {
    if entries == [] then 0
    else
      var head, rest := Nesting(entries[0].value), EntriesNesting(entries[1..]);
      if head >= rest then head else rest
  }

  lemma {:induction false} ItemsBound(items: seq<Json>, n: nat)
    requires forall x <- items :: Nesting(x) <= n
    ensures ItemsNesting(items) <= n
  {
    if items != [] {
      assert items[0] in items;
      ItemsBound(items[1..], n);
    }
  }

  lemma {:induction false} EntriesBound(entries: seq<Entry>, n: nat)
    requires forall e <- entries :: Nesting(e.value) <= n
    ensures EntriesNesting(entries) <= n
  {
    if entries != [] {
      assert entries[0] in entries;
      EntriesBound(entries[1..], n);
    }
  }

  /** The depth limit as a bound on the nesting that is left. */
  lemma {:induction false} CleanIsShallow(data: Json, depth: int)
    requires Clean(data, depth)
    ensures Nesting(data) <= if depth > MAX_DEPTH then 0 else MAX_DEPTH + 1 - depth
    decreases data
  {
    if depth <= MAX_DEPTH {
      match data
      case Arr(items) =>
        forall x | x in items
          ensures Nesting(x) <= MAX_DEPTH - depth
        {
          CleanIsShallow(x, depth + 1);
        }
        ItemsBound(items, MAX_DEPTH - depth);
      case Obj(entries) =>
        forall e | e in entries
          ensures Nesting(e.value) <= MAX_DEPTH - depth
        {
          if !Hidden(e.key) {
            CleanIsShallow(e.value, depth + 1);
          }
        }
        EntriesBound(entries, MAX_DEPTH - depth);
      case _ =>
    }
  }

  /** Two payloads that differ only where the log must not look: below the third level, beyond the first
      twenty items of an array, and under keys whose value is hidden. */
  ghost predicate SameExceptHidden(a: Json, b: Json, depth: int)
    decreases a
  {
    if depth > 3 then true
    else
      match (a, b)
      case (Arr(xs), Arr(ys)) =>
        && (|xs| == |ys| || (|xs| >= 20 && |ys| >= 20))
        && forall i :: 0 <= i < |xs| && i < |ys| && i < 20 ==> SameExceptHidden(xs[i], ys[i], depth + 1)
      case (Obj(xs), Obj(ys)) =>
        |xs| == |ys| && forall i :: 0 <= i < |xs| ==>
          && xs[i].key == ys[i].key
          && (!Hidden(xs[i].key) ==> SameExceptHidden(xs[i].value, ys[i].value, depth + 1))
      case _ => a == b
  }

  /** Main result: two payloads are logged alike exactly when they differ only in what is hidden, so the
      log reveals nothing of the hidden parts and everything else. */
  lemma {:induction false} LogRevealsExactlyTheRest(a: Json, b: Json, depth: int)
    ensures Sanitized(a, depth) == Sanitized(b, depth) <==> SameExceptHidden(a, b, depth)
    decreases a
  {
    if depth <= MAX_DEPTH {
      match (a, b)
      case (Arr(xs), Arr(ys)) =>
        ItemsRevealed(xs, ys, depth);
      case (Obj(xs), Obj(ys)) =>
        EntriesRevealed(xs, ys, depth);
      case _ =>
    }
  }

  lemma ItemsRevealed(xs: seq<Json>, ys: seq<Json>, depth: int)
    requires depth <= MAX_DEPTH
    ensures Sanitized(Arr(xs), depth) == Sanitized(Arr(ys), depth) <==> SameExceptHidden(Arr(xs), Arr(ys), depth)
    decreases xs
  {
    var ks, ls := FirstItems(xs), FirstItems(ys);
    var r, s := SanitizedItems(ks, depth + 1), SanitizedItems(ls, depth + 1);
    forall i | 0 <= i < |ks| && i < |ls|
      ensures r[i] == s[i] <==> SameExceptHidden(xs[i], ys[i], depth + 1)
    {
      LogRevealsExactlyTheRest(xs[i], ys[i], depth + 1);
    }
    assert Sanitized(Arr(xs), depth) == Arr(r) && Sanitized(Arr(ys), depth) == Arr(s);
    assert r == s <==> |ks| == |ls| && forall i :: 0 <= i < |ks| ==> r[i] == s[i];
  }

  lemma EntriesRevealed(xs: seq<Entry>, ys: seq<Entry>, depth: int)
    requires depth <= MAX_DEPTH
    ensures Sanitized(Obj(xs), depth) == Sanitized(Obj(ys), depth) <==> SameExceptHidden(Obj(xs), Obj(ys), depth)
    decreases xs
  {
    var r, s := SanitizedEntries(xs, depth + 1), SanitizedEntries(ys, depth + 1);
    forall i | 0 <= i < |xs| && i < |ys|
      ensures r[i] == s[i] <==>
        && xs[i].key == ys[i].key
        && (!Hidden(xs[i].key) ==> SameExceptHidden(xs[i].value, ys[i].value, depth + 1))
    {
      TreatmentIff(xs[i].key);
      LogRevealsExactlyTheRest(xs[i].value, ys[i].value, depth + 1);
    }
  }

  // ------------------------------------------------------------------
  // Along a path into the payload
  // ------------------------------------------------------------------

  /** The node under a path of positions in arrays and objects. */
  function At(data: Json, path: seq<nat>): Option<Json>
    decreases |path|
  {
    if path == [] then Some(data)
    else
      match data
      case Arr(items) => if path[0] < |items| then At(items[path[0]], path[1..]) else None
      case Obj(entries) => if path[0] < |entries| then At(entries[path[0]].value, path[1..]) else None
      case _ => None
  }

  /** The path leads into the payload through nothing hidden. */
  ghost predicate Visible(data: Json, path: seq<nat>, depth: int)
    decreases |path|
  {
    && depth <= 3
    && (path == [] ||
        match data
        case Arr(items) => path[0] < |items| && path[0] < 20 && Visible(items[path[0]], path[1..], depth + 1)
        case Obj(entries) =>
          && path[0] < |entries| && !Hidden(entries[path[0]].key)
          && Visible(entries[path[0]].value, path[1..], depth + 1)
        case _ => false)
  }

  /** Main result: along a visible path the log has what the payload has there, with the same number of
      items up to twenty, the same keys, and the marker of its key under every hidden one. */
  lemma {:induction false} VisibleIsLogged(data: Json, path: seq<nat>, depth: int)
    requires Visible(data, path, depth)
    ensures At(data, path).Some? && At(Sanitized(data, depth), path).Some?
    ensures
      match (At(data, path).value, At(Sanitized(data, depth), path).value)
      case (Arr(items), logged) => logged.Arr? && |logged.items| == if |items| > 20 then 20 else |items|
      case (Obj(entries), logged) =>
        logged.Obj? && |logged.entries| == |entries| && forall i :: 0 <= i < |entries| ==>
          && logged.entries[i].key == entries[i].key
          && (MentionsSecret(entries[i].key) ==> logged.entries[i].value == Str("[REDACTED]"))
          && (!MentionsSecret(entries[i].key) && SameText(entries[i].key, "headers") ==>
                logged.entries[i].value == Str("[OMITTED]"))
      case (leaf, logged) => logged == leaf
    decreases |path|
  {
    if path == [] {
      if data.Obj? {
        forall i | 0 <= i < |data.entries|
          ensures TreatmentOf(data.entries[i].key) == Redact <==> MentionsSecret(data.entries[i].key)
          ensures TreatmentOf(data.entries[i].key) == Omit <==>
                  !MentionsSecret(data.entries[i].key) && SameText(data.entries[i].key, "headers")
        {
          TreatmentIff(data.entries[i].key);
        }
      }
    } else {
      match data
      case Arr(items) => VisibleIsLogged(items[path[0]], path[1..], depth + 1);
      case Obj(entries) =>
        TreatmentIff(entries[path[0]].key);
        VisibleIsLogged(entries[path[0]].value, path[1..], depth + 1);
    }
  }
}
