/** Request paths with query parameters: printing and parsing. */
module Query {
  import opened Split
  import opened Url
  import opened Wrappers

  type Entry = (string, string)

  type Parameters = map<string, string>

  function PathOf(path: string): string {
    match Find(path, "?", 0)
    case None => path
    case Some(at) => path[..at]
  }

  /** One `key=value` pair. An empty pair is skipped; None when unescaping is undefined. */
  function Added(parameters: Option<Parameters>, pair: string): Option<Parameters> {
    if parameters == None || pair == "" then parameters
    else
      match Find(pair, "=", 0)
      case None =>
        var key := Unescaped(pair, true);
        if key == None then None else Some(parameters.value[key.value := ""])
      case Some(equals) =>
        var key, value := Unescaped(pair[..equals], true), Unescaped(pair[equals + 1..], true);
        if key == None || value == None then None else Some(parameters.value[key.value := value.value])
  }

  function AddedAll(parameters: Option<Parameters>, pairs: seq<string>): Option<Parameters>
    decreases |pairs|
  {
    if pairs == [] then parameters else AddedAll(Added(parameters, pairs[0]), pairs[1..])
  }

  /** The parameters of a query: its pairs are the pieces between ampersands. */
  function ParametersOf(path: string, chopQuestionMark: bool): Option<Parameters> {
    if chopQuestionMark then
      match Find(path, "?", 0)
      case None => Some(map[])
      case Some(at) => AddedAll(Some(map[]), Pieces(path[at + 1..], "&"))
    else AddedAll(Some(map[]), Pieces(path, "&"))
  }

  function Text(entry: Entry): string {
    entry.0 + if entry.1 == "" then "" else "=" + entry.1
  }

  function Texts(entries: seq<Entry>): seq<string> {
    if entries == [] then [] else [Text(entries[0])] + Texts(entries[1..])
  }

  function Printed(path: string, entries: seq<Entry>): string {
    if entries == [] then path else path + "?" + Join(Texts(entries), "&")
  }

  function MapOf(entries: seq<Entry>, before: Parameters): Parameters {
    if entries == [] then before else MapOf(entries[1..], before[entries[0].0 := entries[0].1])
  }

  method GetPath(path: string) returns (out: string)
    ensures out == PathOf(path)
  {
    var mark := Find(path, "?", 0);
    out := if mark.Some? then path[..mark.value] else path;
  }

  method AddParameter(parameters: Parameters, pair: string) returns (after: Option<Parameters>)
    requires |pair| < SIZES
    ensures after == Added(Some(parameters), pair)
  {
    hide Find, Unescaped;
    if pair == "" {
      return Some(parameters);
    }
    var equals := Find(pair, "=", 0);
    if equals == None {
      var key := Unescape(pair, true);
      if key == None {
        return None;
      }
      return Some(parameters[key.value := ""]);
    }
    var key := Unescape(pair[..equals.value], true);
    var value := Unescape(pair[equals.value + 1..], true);
    if key == None || value == None {
      return None;
    }
    after := Some(parameters[key.value := value.value]);
  }

  lemma {:induction false} NoneStays(pairs: seq<string>)
    ensures AddedAll(None, pairs) == None
  {
    if pairs != [] {
      NoneStays(pairs[1..]);
    }
  }

  lemma AddedAllFirst(parameters: Option<Parameters>, pair: string, rest: seq<string>)
    ensures AddedAll(parameters, [pair] + rest) == AddedAll(Added(parameters, pair), rest)
  {
    hide Added;
    assert ([pair] + rest)[1..] == rest;
  }

  /** The loop keeps a view of the string that shrinks from the left: here `query[start..]`. */
  method GetParameters(path: string, chopQuestionMark: bool) returns (result: Option<Parameters>)
    requires |path| < SIZES
    ensures result == ParametersOf(path, chopQuestionMark)
  {
    hide Find, Added, AddedAll;
    var parameters: Parameters := map[];
    var query := path;
    if chopQuestionMark {
      var mark := Find(path, "?", 0);
      if mark == None {
        return Some(parameters);
      }
      query := path[mark.value + 1..];
    }
    assert ParametersOf(path, chopQuestionMark) == AddedAll(Some(map[]), PiecesFrom(query, "&", 0));
    ghost var all := ParametersOf(path, chopQuestionMark);
    hide ParametersOf;
    var start := 0;
    var ampersand := Find(query, "&", 0);
    while ampersand.Some?
      invariant start <= |query| < SIZES && ampersand == Find(query, "&", start)
      invariant all == AddedAll(Some(parameters), PiecesFrom(query, "&", start))
      decreases |query| - start
    {
      var pair := query[start..ampersand.value];
      AddedAllFirst(Some(parameters), pair, PiecesFrom(query, "&", ampersand.value + 1));
      var after := AddParameter(parameters, pair);
      if after == None {
        NoneStays(PiecesFrom(query, "&", ampersand.value + 1));
        return None;
      }
      parameters := after.value;
      start := ampersand.value + 1;
      ampersand := Find(query, "&", start);
    }
    AddedAllFirst(Some(parameters), query[start..], []);
    assert PiecesFrom(query, "&", start) == [query[start..]] + [];
    AddedNone(Added(Some(parameters), query[start..]));
    result := AddParameter(parameters, query[start..]);
  }

  lemma AddedNone(parameters: Option<Parameters>)
    ensures AddedAll(parameters, []) == parameters
  {
  }

  lemma {:induction false} TextsSnoc(entries: seq<Entry>, entry: Entry)
    ensures Texts(entries + [entry]) == Texts(entries) + [Text(entry)]
  {
    if entries == [] {
      assert entries + [entry] == [entry];
    } else {
      assert (entries + [entry])[1..] == entries[1..] + [entry];
      TextsSnoc(entries[1..], entry);
    }
  }

  /** Printing with one entry more. */
  lemma PrintedSnoc(path: string, entries: seq<Entry>, entry: Entry)
    ensures Printed(path, entries + [entry])
         == Printed(path, entries) + (if entries == [] then "?" else "&") + Text(entry)
  {
    TextsSnoc(entries, entry);
    if entries == [] {
      assert entries + [entry] == [entry];
    } else {
      JoinSnoc(Texts(entries), Text(entry), "&");
    }
  }

  /** The map is iterated in some order: `entries`. */
  method PathWithParameters(path: string, entries: seq<Entry>) returns (out: string)
    ensures out == Printed(path, entries)
  {
    out := path;
    var first := true;
    for i := 0 to |entries|
      invariant first <==> i == 0
      invariant out == Printed(path, entries[..i])
    {
      PrintedSnoc(path, entries[..i], entries[i]);
      assert entries[..i + 1] == entries[..i] + [entries[i]];
      var (key, value) := entries[i];
      if first {
        out := out + "?";
        first := false;
      } else {
        out := out + "&";
      }
      out := out + key;
      if value != "" {
        out := out + "=";
        out := out + value;
      }
    }
    assert entries[..|entries|] == entries;
  }

  /** What is printed for an entry is read back as `entry`. */
  predicate Reads(raw: Entry, entry: Entry) {
    && raw != ("", "")
    && '=' !in raw.0
    && '&' !in raw.0 && '&' !in raw.1
    && Unescaped(raw.0, true) == Some(entry.0)
    && Unescaped(raw.1, true) == Some(entry.1)
  }

  lemma TextAdded(parameters: Parameters, raw: Entry, entry: Entry)
    requires Reads(raw, entry)
    ensures Added(Some(parameters), Text(raw)) == Some(parameters[entry.0 := entry.1])
  {
    hide Find, Unescaped;
    var text := Text(raw);
    if raw.1 == "" {
      CharacterNotFound(text, '=', 0);
      assert text == raw.0;
      NothingUnescaped();
    } else {
      CharacterFound(text, '=', 0, |raw.0|);
      assert text[..|raw.0|] == raw.0 && text[|raw.0| + 1..] == raw.1;
    }
  }

  lemma NothingUnescaped()
    ensures Unescaped("", true) == Some("")
  {
  }

  lemma {:induction false} TextsAdded(parameters: Parameters, raw: seq<Entry>, entries: seq<Entry>)
    requires |raw| == |entries| && forall i :: 0 <= i < |raw| ==> Reads(raw[i], entries[i])
    ensures AddedAll(Some(parameters), Texts(raw)) == Some(MapOf(entries, parameters))
    decreases |raw|
  {
    hide Added, Reads, Text;
    if raw != [] {
      TextAdded(parameters, raw[0], entries[0]);
      TextsAdded(parameters[entries[0].0 := entries[0].1], raw[1..], entries[1..]);
      AddedAllFirst(Some(parameters), Text(raw[0]), Texts(raw[1..]));
    }
  }

  lemma {:induction false} TextsHaveNoAmpersand(raw: seq<Entry>, entries: seq<Entry>)
    requires |raw| == |entries| && forall i :: 0 <= i < |raw| ==> Reads(raw[i], entries[i])
    ensures forall t :: t in Texts(raw) ==> '&' !in t
  {
    hide Unescaped;
    if raw != [] {
      TextsHaveNoAmpersand(raw[1..], entries[1..]);
    }
  }

  /** Printing and parsing: a path without '?' and all entries that are readable one by one come
      back, in whatever order the map is iterated. */
  lemma PrintedIsParsed(path: string, raw: seq<Entry>, entries: seq<Entry>)
    requires '?' !in path
    requires |raw| == |entries| && forall i :: 0 <= i < |raw| ==> Reads(raw[i], entries[i])
    ensures PathOf(Printed(path, raw)) == path
    ensures ParametersOf(Printed(path, raw), true) == Some(MapOf(entries, map[]))
  {
    var whole := Printed(path, raw);
    if raw == [] {
      CharacterNotFound(whole, '?', 0);
    } else {
      CharacterFound(whole, '?', 0, |path|);
      var query := Join(Texts(raw), "&");
      assert whole[..|path|] == path && whole[|path| + 1..] == query;
      TextsHaveNoAmpersand(raw, entries);
      SplitUndoesJoin(Texts(raw), '&');
      TextsAdded(map[], raw, entries);
    }
  }

  lemma {:induction false} LastOfKey(entries: seq<Entry>, before: Parameters, i: nat)
    requires i < |entries| && forall j :: i < j < |entries| ==> entries[j].0 != entries[i].0
    ensures entries[i].0 in MapOf(entries, before) && MapOf(entries, before)[entries[i].0] == entries[i].1
    decreases |entries|
  {
    var first, rest := entries[0], entries[1..];
    if i == 0 {
      KeyKept(rest, before[first.0 := first.1], first.0);
    } else {
      LastOfKey(rest, before[first.0 := first.1], i - 1);
    }
  }

  lemma {:induction false} KeyKept(entries: seq<Entry>, before: Parameters, key: string)
    requires key in before && forall j :: 0 <= j < |entries| ==> entries[j].0 != key
    ensures key in MapOf(entries, before) && MapOf(entries, before)[key] == before[key]
    decreases |entries|
  {
    if entries != [] {
      KeyKept(entries[1..], before[entries[0].0 := entries[0].1], key);
    }
  }

  /** Of several pairs with one key the last counts. */
  lemma LastPairCounts(path: string, raw: seq<Entry>, entries: seq<Entry>, i: nat)
    requires '?' !in path && |raw| == |entries| && forall k :: 0 <= k < |raw| ==> Reads(raw[k], entries[k])
    requires i < |entries| && forall j :: i < j < |entries| ==> entries[j].0 != entries[i].0
    ensures var parsed := ParametersOf(Printed(path, raw), true);
            parsed.Some? && entries[i].0 in parsed.value && parsed.value[entries[i].0] == entries[i].1
  {
    hide Reads, MapOf;
    PrintedIsParsed(path, raw, entries);
    LastOfKey(entries, map[], i);
  }

  /** What is printed: a question mark, ampersands between the entries, and an equals sign only before a
      value that is not empty. */
  lemma PrintedLooks(path: string, a: Entry, b: Entry)
    ensures Printed(path, []) == path
    ensures Printed(path, [a]) == path + "?" + a.0 + if a.1 == "" then "" else "=" + a.1
    ensures Printed(path, [a, b]) == Printed(path, [a]) + "&" + b.0 + if b.1 == "" then "" else "=" + b.1
  {
    PrintedSnoc(path, [], a);
    PrintedSnoc(path, [a], b);
    assert [] + [a] == [a] && [a] + [b] == [a, b];
    hide Printed;
  }

  /** The entries of m in some order. */
  ghost predicate Lists(entries: seq<Entry>, m: Parameters) {
    && (forall i, j :: 0 <= i < j < |entries| ==> entries[i].0 != entries[j].0)
    && (forall e :: e in entries ==> e.0 in m && m[e.0] == e.1)
    && (forall k :: k in m ==> (k, m[k]) in entries)
  }

  lemma {:induction false} MapOfDistinct(entries: seq<Entry>, before: Parameters)
    requires forall i, j :: 0 <= i < j < |entries| ==> entries[i].0 != entries[j].0
    ensures MapOf(entries, before).Keys == before.Keys + set e | e in entries :: e.0
    ensures forall e :: e in entries ==> MapOf(entries, before)[e.0] == e.1
    ensures forall k :: k in before && (forall e :: e in entries ==> e.0 != k) ==> MapOf(entries, before)[k] == before[k]
  {
    if entries != [] {
      var first, rest := entries[0], entries[1..];
      MapOfDistinct(rest, before[first.0 := first.1]);
      assert forall e :: e in entries <==> e == first || e in rest;
    }
  }

  lemma ListsMap(entries: seq<Entry>, m: Parameters)
    requires Lists(entries, m)
    ensures MapOf(entries, map[]) == m
  {
    MapOfDistinct(entries, map[]);
    var made := MapOf(entries, map[]);
    forall k
      ensures k in made <==> k in m
    {
      assert k in m ==> (k, m[k]).0 in made;
    }
    assert forall k :: k in m ==> made[(k, m[k]).0] == (k, m[k]).1;
  }

  /** Unescaping leaves s alone, and s holds no ampersand. */
  ghost predicate Plain(s: string) {
    '&' !in s && '+' !in s && !HasEscape(s) && ('%' in s ==> 3 <= |s|)
  }

  ghost predicate Survives(e: Entry) {
    e != ("", "") && '=' !in e.0 && Plain(e.0) && Plain(e.1)
  }

  lemma SurvivesReads(e: Entry)
    requires Survives(e)
    ensures Reads(e, e)
  {
    hide HasEscape, Unescaped;
    UnescapedUnchanged(e.0);
    UnescapedUnchanged(e.1);
  }

  /** The printer escapes nothing. A path without '?' and surviving entries come back, in whatever
      order the map is iterated. */
  lemma QueryRoundTrip(path: string, entries: seq<Entry>, m: Parameters)
    requires '?' !in path && Lists(entries, m)
    requires forall e :: e in entries ==> Survives(e)
    ensures PathOf(Printed(path, entries)) == path
    ensures ParametersOf(Printed(path, entries), true) == Some(m)
  {
    hide Survives, Reads, Lists;
    forall i | 0 <= i < |entries|
      ensures Reads(entries[i], entries[i])
    {
      assert entries[i] in entries;
      SurvivesReads(entries[i]);
    }
    PrintedIsParsed(path, entries, entries);
    ListsMap(entries, m);
  }

  function EscapedEntries(entries: seq<Entry>): seq<Entry>
    requires forall e :: e in entries ==> Octets(e.0) && Octets(e.1)
  {
    if entries == [] then [] else [(Escaped(entries[0].0), Escaped(entries[0].1))] + EscapedEntries(entries[1..])
  }

  lemma EscapedReads(entry: Entry)
    requires Octets(entry.0) && Octets(entry.1) && entry != ("", "")
    ensures Reads((Escaped(entry.0), Escaped(entry.1)), entry)
  {
    EscapedSafe(entry.0);
    EscapedSafe(entry.1);
    UnescapeUndoesEscape(entry.0);
    UnescapeUndoesEscape(entry.1);
  }

  lemma {:induction false} AllEscapedRead(entries: seq<Entry>)
    requires forall e :: e in entries ==> Octets(e.0) && Octets(e.1) && e != ("", "")
    ensures |EscapedEntries(entries)| == |entries|
    ensures forall i :: 0 <= i < |entries| ==> Reads(EscapedEntries(entries)[i], entries[i])
  {
    hide Reads, Escaped, Octets;
    if entries != [] {
      EscapedReads(entries[0]);
      AllEscapedRead(entries[1..]);
    }
  }

  /** With keys and values escaped first, every byte string survives. */
  lemma EscapedQueryRoundTrip(path: string, entries: seq<Entry>, m: Parameters)
    requires '?' !in path && Lists(entries, m)
    requires forall e :: e in entries ==> Octets(e.0) && Octets(e.1) && e != ("", "")
    ensures PathOf(Printed(path, EscapedEntries(entries))) == path
    ensures ParametersOf(Printed(path, EscapedEntries(entries)), true) == Some(m)
  {
    AllEscapedRead(entries);
    PrintedIsParsed(path, EscapedEntries(entries), entries);
    ListsMap(entries, m);
  }

  // ---- Exactly the entries that survive ----
  //
  // Each entry of a map weighs one more than its text. A pair can add no more weight than its own
  // length and the ampersand, so a query gives back its map only if no pair loses any weight.

  function Cost(key: string, value: string): nat {
    |Text((key, value))| + 1
  }

  ghost function Weight(m: Parameters): nat
    decreases |m|
  {
    if m == map[] then 0
    else
      var k :| k in m;
      assert m.Keys == (m - {k}).Keys + {k};
      Cost(k, m[k]) + Weight(m - {k})
  }

  /** The weight does not depend on the order of the entries. */
  lemma {:induction false} WeightWithout(m: Parameters, k: string)
    requires k in m
    ensures Weight(m) == Cost(k, m[k]) + Weight(m - {k})
    decreases |m|
  {
    var first :| first in m && Weight(m) == Cost(first, m[first]) + Weight(m - {first});
    if first != k {
      var rest := m - {first};
      assert m.Keys == rest.Keys + {first};
      WeightWithout(rest, k);
      assert rest - {k} == m - {k} - {first};
      assert (m - {k}).Keys + {k} == m.Keys;
      WeightWithout(m - {k}, first);
    }
  }

  lemma WeightAdded(m: Parameters, k: string, v: string)
    ensures Weight(m[k := v]) <= Weight(m) + Cost(k, v)
    ensures k !in m ==> Weight(m[k := v]) == Weight(m) + Cost(k, v)
    ensures k in m ==> Weight(m[k := v]) < Weight(m) + Cost(k, v)
  {
    var after := m[k := v];
    WeightWithout(after, k);
    assert after - {k} == m - {k};
    if k in m {
      WeightWithout(m, k);
    } else {
      assert m - {k} == m;
    }
  }

  /** How long the pairs are, with an ampersand each. */
  function Length(pairs: seq<string>): nat {
    if pairs == [] then 0 else |pairs[0]| + 1 + Length(pairs[1..])
  }

  lemma {:induction false} JoinLength(pieces: seq<string>)
    requires pieces != []
    ensures |Join(pieces, "&")| + 1 == Length(pieces)
  {
    if |pieces| != 1 {
      JoinLength(pieces[1..]);
    }
  }

  lemma {:induction false} MapWeight(entries: seq<Entry>, before: Parameters)
    requires forall i, j :: 0 <= i < j < |entries| ==> entries[i].0 != entries[j].0
    requires forall e :: e in entries ==> e.0 !in before
    ensures Weight(MapOf(entries, before)) == Weight(before) + Length(Texts(entries))
    decreases |entries|
  {
    hide Weight, Text;
    if entries != [] {
      var e := entries[0];
      WeightAdded(before, e.0, e.1);
      assert e in entries;
      MapWeight(entries[1..], before[e.0 := e.1]);
    }
  }

  lemma CharacterFoundAt(s: string, c: char, i: nat)
    requires i < |s| && s[i] == c
    ensures Find(s, [c], 0).Some? && Find(s, [c], 0).value <= i
  {
    FindFirst(s, [c], 0);
    AtCharacter(s, c, i);
  }

  lemma BeforeFirst(s: string, c: char)
    ensures match Find(s, [c], 0)
            case None => c !in s
            case Some(at) => at < |s| && c !in s[..at]
  {
    forall i | 0 <= i < |s| && s[i] == c
      ensures Find(s, [c], 0).Some? && Find(s, [c], 0).value <= i
    {
      CharacterFoundAt(s, c, i);
    }
  }

  /** A pair adds at most its own weight, and exactly that only by adding a new entry that survives. */
  lemma AddedWeight(m: Parameters, pair: string) returns (e: Entry)
    requires '&' !in pair && Added(Some(m), pair).Some?
    ensures var after := Added(Some(m), pair).value;
            && Weight(after) <= Weight(m) + |pair| + 1
            && (Weight(after) == Weight(m) + |pair| + 1 ==> after == m[e.0 := e.1] && Survives(e))
  {
    hide Weight, Unescaped, HasEscape, Find;
    e := ("", "");
    if pair != "" {
      BeforeFirst(pair, '=');
      match Find(pair, "=", 0)
      case None =>
        e := (Unescaped(pair, true).value, "");
        SameLengthPlain(pair);
        NothingEscaped();
        WeightAdded(m, e.0, "");
      case Some(at) =>
        var left, right := pair[..at], pair[at + 1..];
        e := (Unescaped(left, true).value, Unescaped(right, true).value);
        SameLengthPlain(left);
        SameLengthPlain(right);
        WeightAdded(m, e.0, e.1);
    }
  }

  lemma NothingEscaped()
    ensures Plain("")
  {
  }

  lemma {:induction false} AddedAllWeight(m: Parameters, pairs: seq<string>)
    requires forall p :: p in pairs ==> '&' !in p
    requires AddedAll(Some(m), pairs).Some?
    ensures var after := AddedAll(Some(m), pairs).value;
            && Weight(after) <= Weight(m) + Length(pairs)
            && (Weight(after) == Weight(m) + Length(pairs) && (forall k :: k in m ==> Survives((k, m[k]))) ==>
                  forall k :: k in after ==> Survives((k, after[k])))
    decreases |pairs|
  {
    hide Weight, Added, Survives;
    if pairs != [] {
      NoneStays(pairs[1..]);
      assert pairs[0] in pairs;
      var e := AddedWeight(m, pairs[0]);
      AddedAllWeight(Added(Some(m), pairs[0]).value, pairs[1..]);
    }
  }

  lemma QueryOf(path: string, entries: seq<Entry>)
    requires '?' !in path && entries != []
    ensures ParametersOf(Printed(path, entries), true)
         == AddedAll(Some(map[]), Pieces(Join(Texts(entries), "&"), "&"))
  {
    hide Find, AddedAll, Pieces;
    var whole := Printed(path, entries);
    CharacterFound(whole, '?', 0, |path|);
    assert whole[|path| + 1..] == Join(Texts(entries), "&");
  }

  lemma PiecesLackAmpersand(s: string)
    ensures forall p :: p in Pieces(s, "&") ==> '&' !in p
    ensures Length(Pieces(s, "&")) == |s| + 1
  {
    PiecesWithoutDelimiter(s, "&");
    PiecesRejoin(s, "&");
    JoinLength(Pieces(s, "&"));
    forall p | p in Pieces(s, "&")
      ensures '&' !in p
    {
      assert !Contains(p, "&");
      BeforeFirst(p, '&');
    }
  }

  /** A map printed behind a path without '?' is read back if and only if each of its entries holds no
      ampersand, plus or escape, has no equals sign in its key, and is not empty. */
  lemma QuerySurvivesExactly(path: string, entries: seq<Entry>, m: Parameters)
    requires '?' !in path && Lists(entries, m)
    ensures ParametersOf(Printed(path, entries), true) == Some(m) <==> forall e :: e in entries ==> Survives(e)
  {
    hide Survives, ParametersOf, Printed;
    if forall e :: e in entries ==> Survives(e) {
      QueryRoundTrip(path, entries, m);
    } else {
      var lost :| lost in entries && !Survives(lost);
      assert lost == (lost.0, m[lost.0]);
      QueryOf(path, entries);
      var query := Join(Texts(entries), "&");
      PiecesLackAmpersand(query);
      JoinLength(Texts(entries));
      MapWeight(entries, map[]);
      ListsMap(entries, m);
      hide Pieces, Weight, Join, Texts;
      assert Weight(m) == Weight(map[]) + Length(Pieces(query, "&"));
      if AddedAll(Some(map[]), Pieces(query, "&")) == Some(m) {
        AddedAllWeight(map[], Pieces(query, "&"));
      }
    }
  }
}
