/** The deck composer: an ordered list of card ids, deduped, filtered, capped,
    the weather strip last. */
module Deck {
  import opened Wrappers

  const WEATHER_STRIP_ID := "weather"
  const DECK_CAP := 120

  datatype DeckEntry = DeckEntry(
    id: string, injectAfter: seq<string>, swap: Option<string>, enabled: bool,
    season: Option<(int, int)>, countries: Option<set<string>>)

  datatype DeckData = DeckData(base: seq<DeckEntry>, countryTables: map<string, map<string, seq<string>>>)

  /** `lower` is `str.lower`. */
  datatype DeckInput = DeckInput(
    country: Option<string>, month: int, known: string -> bool, disabled: string -> bool, fallback: string -> bool,
    sharedCard: Option<string>, lower: string -> string)

  /** Python's truth of an optional string. */
  predicate Given(s: Option<string>) {
    s.Some? && s.value != ""
  }

  function CountryTable(data: DeckData, country: Option<string>, name: string): seq<string> {
    if country.Some? && country.value in data.countryTables && name in data.countryTables[country.value]
    then data.countryTables[country.value][name] else []
  }

  predicate EntryApplies(entry: DeckEntry, inp: DeckInput) {
    && entry.enabled
    && (entry.season.Some? ==>
          var (start, end) := entry.season.value;
          if start <= end then start <= inp.month <= end else !(end < inp.month < start))
    && (entry.countries.Some? ==> inp.country.Some? && inp.country.value in entry.countries.value)
  }

  /** A season is a way round the year: the month lies on it when no more months
      lie from its start to the month than from its start to its end. */
  lemma SeasonGoesRound(entry: DeckEntry, inp: DeckInput)
    requires entry.season.Some? ==>
      var (start, end) := entry.season.value; 1 <= start <= 12 && 1 <= end <= 12 && 1 <= inp.month <= 12
    ensures EntryApplies(entry, inp) <==>
      && entry.enabled
      && (entry.season.None?
          || (inp.month - entry.season.value.0 + 12) % 12 <= (entry.season.value.1 - entry.season.value.0 + 12) % 12)
      && (entry.countries.None? || exists c :: c in entry.countries.value && inp.country == Some(c))
  {
    assert entry.countries.Some? && inp.country.Some? && inp.country.value in entry.countries.value ==>
      exists c :: c in entry.countries.value && inp.country == Some(c);
  }

  /** `partition("|")`: what stands before and after the first bar. */
  function Partition(s: string): (string, string) {
    if s == "" then ("", "")
    else if s[0] == '|' then ("", s[1..])
    else (([s[0]] + Partition(s[1..]).0), Partition(s[1..]).1)
  }

  const COUNTRY := "country:"

  function Resolve(ref: string, data: DeckData, inp: DeckInput): seq<string> {
    if !(COUNTRY <= ref) then [ref]
    else
      var (table, fallback) := Partition(ref[|COUNTRY|..]);
      if table == "news" then (if Given(inp.country) then ["gnews-" + inp.lower(inp.country.value)] else [])
      else if table == "education" then (if Given(inp.country) then ["education-" + inp.lower(inp.country.value)] else [])
      else
        var ids := CountryTable(data, inp.country, table);
        if ids != [] then ids else if fallback != "" then [fallback] else []
  }

  lemma {:induction false} PartitionAtBar(table: string, fallback: Option<string>)
    requires '|' !in table
    ensures Partition(table + if fallback.Some? then "|" + fallback.value else "")
      == (table, fallback.UnwrapOr(""))
  {
    var rest := if fallback.Some? then "|" + fallback.value else "";
    if table == "" {
      assert table + rest == rest;
      assert fallback.Some? ==> rest[1..] == fallback.value;
    } else {
      PartitionAtBar(table[1..], fallback);
      assert (table + rest)[1..] == table[1..] + rest;
      assert [table[0]] + table[1..] == table;
    }
  }

  /** A literal id stands for itself. */
  lemma ResolveLiteral(ref: string, data: DeckData, inp: DeckInput)
    requires |ref| < 8 || ref[..8] != "country:"
    ensures Resolve(ref, data, inp) == [ref]
  {}

  /** `country:news` and `country:education` are the country's two cards, when
      there is a country; any other table is the country's own, or else what
      stands after the bar, if anything does. */
  lemma ResolveCountry(table: string, fallback: Option<string>, data: DeckData, inp: DeckInput)
    requires '|' !in table
    ensures var cards := Resolve("country:" + table + if fallback.Some? then "|" + fallback.value else "", data, inp);
      var known := inp.country.Some? && inp.country.value != "";
      var own := if inp.country.Some? && inp.country.value in data.countryTables
                    && table in data.countryTables[inp.country.value]
                 then data.countryTables[inp.country.value][table] else [];
      && (table == "news" ==> cards == if known then ["gnews-" + inp.lower(inp.country.value)] else [])
      && (table == "education" ==> cards == if known then ["education-" + inp.lower(inp.country.value)] else [])
      && (table != "news" && table != "education" ==>
            cards == if |own| > 0 then own
                     else if fallback.Some? && |fallback.value| > 0 then [fallback.value] else [])
  {
    var rest := table + if fallback.Some? then "|" + fallback.value else "";
    var ref := "country:" + table + if fallback.Some? then "|" + fallback.value else "";
    assert ref == COUNTRY + rest;
    assert ref[|COUNTRY|..] == rest;
    PartitionAtBar(table, fallback);
  }

  predicate Accepted(inp: DeckInput, id: string) {
    id != WEATHER_STRIP_ID && inp.known(id) && !inp.disabled(id) && !inp.fallback(id)
  }

  /** The accepted ids in the order they first occur. */
  function Picked(cards: seq<string>, inp: DeckInput): seq<string> {
    if cards == [] then []
    else
      var shorter, last := cards[..|cards| - 1], cards[|cards| - 1];
      Picked(shorter, inp) + if Accepted(inp, last) && last !in shorter then [last] else []
  }

  function Capped(ids: seq<string>): seq<string> {
    if |ids| <= DECK_CAP then ids else ids[..DECK_CAP]
  }

  /** The first 120 of them, then the weather strip when it was asked for. */
  function DeckOf(cards: seq<string>, inp: DeckInput): seq<string> {
    Capped(Picked(cards, inp)) + if WEATHER_STRIP_ID in cards then [WEATHER_STRIP_ID] else []
  }

  function WithoutWeather(ids: seq<string>): seq<string> {
    if ids == [] then []
    else WithoutWeather(ids[..|ids| - 1]) + if ids[|ids| - 1] != WEATHER_STRIP_ID then [ids[|ids| - 1]] else []
  }

  lemma WithoutWeatherMore(ids: seq<string>, id: string)
    ensures WithoutWeather(ids + [id]) == WithoutWeather(ids) + if id != WEATHER_STRIP_ID then [id] else []
  {
    assert (ids + [id])[..|ids|] == ids;
  }

  /** What the loop of `finalize` holds after some of the cards. */
  ghost predicate Scanned(cards: seq<string>, inp: DeckInput, seen: set<string>, out: seq<string>) {
    && (forall id :: id in seen <==> id in cards)
    && WithoutWeather(out) == Picked(cards, inp)
    && (WEATHER_STRIP_ID in out <==> WEATHER_STRIP_ID in cards)
  }

  predicate Admitted(inp: DeckInput, id: string) {
    id == WEATHER_STRIP_ID || (inp.known(id) && !inp.disabled(id) && !inp.fallback(id))
  }

  lemma ScanNext(cards: seq<string>, inp: DeckInput, seen: set<string>, out: seq<string>, id: string)
    requires Scanned(cards, inp, seen, out)
    ensures id in seen ==> Scanned(cards + [id], inp, seen, out)
    ensures id !in seen ==> Scanned(cards + [id], inp, seen + {id}, if Admitted(inp, id) then out + [id] else out)
  {
    assert (cards + [id])[..|cards|] == cards;
    WithoutWeatherMore(out, id);
    assert Picked(cards, inp) + [] == Picked(cards, inp);
  }

  method Finalize(cards: seq<string>, inp: DeckInput) returns (content: seq<string>)
    ensures content == DeckOf(cards, inp)
  {
    var seen: set<string>, out: seq<string> := {}, [];
    for i := 0 to |cards|
      invariant Scanned(cards[..i], inp, seen, out)
    {
      var id := cards[i];
      ScanNext(cards[..i], inp, seen, out, id);
      assert cards[..i + 1] == cards[..i] + [id];
      if id !in seen {
        seen := seen + {id};
        if id == WEATHER_STRIP_ID {
          out := out + [id];
        } else if inp.known(id) && !inp.disabled(id) && !inp.fallback(id) {
          out := out + [id];
        }
      }
    }
    assert cards[..|cards|] == cards;
    content := Capped(WithoutWeather(out));
    if WEATHER_STRIP_ID in out {
      content := content + [WEATHER_STRIP_ID];
    }
  }

  // What every deck is

  predicate Distinct(ids: seq<string>) {
    forall i, j | 0 <= i < j < |ids| :: ids[i] != ids[j]
  }

  lemma {:induction false} PickedFacts(cards: seq<string>, inp: DeckInput)
    ensures Distinct(Picked(cards, inp))
    ensures forall id :: id in Picked(cards, inp) <==> id in cards && Accepted(inp, id)
    ensures forall id :: Accepted(inp, id) <==> id != "weather" && inp.known(id) && !inp.disabled(id) && !inp.fallback(id)
  {
    if cards != [] {
      PickedFacts(cards[..|cards| - 1], inp);
      assert cards == cards[..|cards| - 1] + [cards[|cards| - 1]];
    }
  }

  lemma DeckFacts(cards: seq<string>, inp: DeckInput)
    ensures var deck := DeckOf(cards, inp);
      && (forall i, j | 0 <= i < j < |deck| :: deck[i] != deck[j])
      && (forall id | id in deck && id != WEATHER_STRIP_ID :: id in cards && Accepted(inp, id))
      && (WEATHER_STRIP_ID in deck <==> WEATHER_STRIP_ID in cards)
      && (WEATHER_STRIP_ID in deck ==> deck[|deck| - 1] == WEATHER_STRIP_ID)
      && |Capped(Picked(cards, inp))| <= 120
      && |deck| <= 121
  {
    PickedFacts(cards, inp);
  }

  predicate FirstAt(cards: seq<string>, id: string, k: nat) {
    k < |cards| && cards[k] == id && id !in cards[..k]
  }

  lemma {:induction false} PickedOrder(cards: seq<string>, inp: DeckInput, i: nat, j: nat, m: nat, n: nat)
    requires i < |Picked(cards, inp)| && j < |Picked(cards, inp)|
    requires FirstAt(cards, Picked(cards, inp)[i], m) && FirstAt(cards, Picked(cards, inp)[j], n)
    ensures i < j <==> m < n
    decreases |cards|
  {
    var shorter, last := cards[..|cards| - 1], cards[|cards| - 1];
    var before := Picked(shorter, inp);
    PickedFacts(cards, inp);
    PickedFacts(shorter, inp);
    assert m < |cards| - 1 ==> shorter[..m] == cards[..m];
    assert n < |cards| - 1 ==> shorter[..n] == cards[..n];
    if i < |before| && j < |before| {
      assert before[i] in shorter && before[j] in shorter;
      FirstStays(shorter, last, before[i], m);
      FirstStays(shorter, last, before[j], n);
      PickedOrder(shorter, inp, i, j, m, n);
    } else if i < |before| {
      FirstStays(shorter, last, before[i], m);
    } else if j < |before| {
      FirstStays(shorter, last, before[j], n);
    }
  }

  lemma FirstStays(shorter: seq<string>, last: string, id: string, k: nat)
    requires id in shorter && FirstAt(shorter + [last], id, k)
    ensures FirstAt(shorter, id, k)
  {
    var cards := shorter + [last];
    var p :| 0 <= p < |shorter| && shorter[p] == id;
    assert forall x | 0 <= x < k :: cards[x] == cards[..k][x] && cards[x] != id;
    assert cards[p] == id && k <= p;
    assert cards[..k] == shorter[..k];
  }

  /** The content of a deck leaves out an accepted card only to the cap, and only
      after every card that occurs before it. */
  lemma NothingSkipped(cards: seq<string>, inp: DeckInput, id: string)
    requires id in cards && Accepted(inp, id) && id !in DeckOf(cards, inp)
    ensures |Capped(Picked(cards, inp))| == 120 <= |DeckOf(cards, inp)|
    ensures forall j, m, n | 0 <= j < 120 && FirstAt(cards, DeckOf(cards, inp)[j], m) && FirstAt(cards, id, n) :: m < n
  {
    PickedFacts(cards, inp);
    var picked := Picked(cards, inp);
    var i :| 0 <= i < |picked| && picked[i] == id;
    assert forall k | 0 <= k < |Capped(picked)| :: Capped(picked)[k] == picked[k] && DeckOf(cards, inp)[k] == picked[k];
    forall j, m, n | 0 <= j < 120 && FirstAt(cards, DeckOf(cards, inp)[j], m) && FirstAt(cards, id, n) ensures m < n {
      PickedOrder(cards, inp, j, i, m, n);
    }
  }

  lemma PickedMore(cards: seq<string>, id: string, inp: DeckInput)
    ensures Picked(cards + [id], inp) == Picked(cards, inp) + if Accepted(inp, id) && id !in cards then [id] else []
  {
    assert (cards + [id])[..|cards|] == cards;
  }

  lemma {:induction false} PickedFixed(ids: seq<string>, inp: DeckInput)
    requires Distinct(ids) && forall k | 0 <= k < |ids| :: Accepted(inp, ids[k])
    ensures Picked(ids, inp) == ids
    decreases |ids|
  {
    if ids != [] {
      var shorter, last := ids[..|ids| - 1], ids[|ids| - 1];
      PickedFixed(shorter, inp);
      PickedMore(shorter, last, inp);
      assert ids == shorter + [last];
    }
  }

  lemma {:induction false} PickedTail(cards: seq<string>, tail: seq<string>, inp: DeckInput)
    requires forall id | id in tail :: id in cards
    ensures Picked(cards + tail, inp) == Picked(cards, inp)
  {
    if tail == [] {
      assert cards + tail == cards;
    } else {
      var shorter := tail[..|tail| - 1];
      PickedTail(cards, shorter, inp);
      assert (cards + tail)[..|cards + tail| - 1] == cards + shorter;
    }
  }

  /** Cards that already occurred change nothing at the end. */
  lemma RepeatedTailIgnored(cards: seq<string>, tail: seq<string>, inp: DeckInput)
    requires forall id | id in tail :: id in cards
    ensures DeckOf(cards + tail, inp) == DeckOf(cards, inp)
  {
    PickedTail(cards, tail, inp);
  }

  /** Finalising a deck again changes nothing. */
  lemma FinalizeTwice(cards: seq<string>, inp: DeckInput)
    ensures DeckOf(DeckOf(cards, inp), inp) == DeckOf(cards, inp)
  {
    PickedFacts(cards, inp);
    var content := Capped(Picked(cards, inp));
    PickedFixed(content, inp);
    var deck := DeckOf(cards, inp);
    if WEATHER_STRIP_ID in cards {
      assert deck[..|deck| - 1] == content;
      assert Picked(deck, inp) == content + [];
    } else {
      assert deck == content;
    }
  }

  lemma {:induction false} PickedPrefix(cards: seq<string>, more: seq<string>, inp: DeckInput)
    ensures Picked(cards, inp) <= Picked(cards + more, inp)
  {
    if more == [] {
      assert cards + more == cards;
    } else {
      PickedPrefix(cards, more[..|more| - 1], inp);
      assert (cards + more)[..|cards + more| - 1] == cards + more[..|more| - 1];
    }
  }

  // Composition

  function Leading(inp: DeckInput): seq<string> {
    (if Given(inp.sharedCard) then [inp.sharedCard.value] else [])
    + if Given(inp.country) then ["gnews-" + inp.lower(inp.country.value)] else []
  }

  function Injected(refs: seq<string>, data: DeckData, inp: DeckInput): seq<string> {
    if refs == [] then [] else Injected(refs[..|refs| - 1], data, inp) + Resolve(refs[|refs| - 1], data, inp)
  }

  function EntryCards(entry: DeckEntry, data: DeckData, inp: DeckInput): seq<string> {
    if !EntryApplies(entry, inp) then []
    else
      var swapped := if Given(entry.swap) then CountryTable(data, inp.country, entry.swap.value) else [];
      (if swapped != [] then swapped else [entry.id]) + Injected(entry.injectAfter, data, inp)
  }

  function BaseCards(base: seq<DeckEntry>, data: DeckData, inp: DeckInput): seq<string> {
    if base == [] then [] else BaseCards(base[..|base| - 1], data, inp) + EntryCards(base[|base| - 1], data, inp)
  }

  method Inject(refs: seq<string>, data: DeckData, inp: DeckInput) returns (ids: seq<string>)
    ensures ids == Injected(refs, data, inp)
  {
    ids := [];
    for j := 0 to |refs|
      invariant ids == Injected(refs[..j], data, inp)
    {
      assert refs[..j + 1][..j] == refs[..j];
      ids := ids + Resolve(refs[j], data, inp);
    }
    assert refs[..|refs|] == refs;
  }

  method CardsOfEntry(entry: DeckEntry, data: DeckData, inp: DeckInput) returns (cards: seq<string>)
    ensures cards == EntryCards(entry, data, inp)
  {
    if !EntryApplies(entry, inp) {
      return [];
    }
    var swapped := if Given(entry.swap) then CountryTable(data, inp.country, entry.swap.value) else [];
    var injected := Inject(entry.injectAfter, data, inp);
    return (if swapped != [] then swapped else [entry.id]) + injected;
  }

  lemma BaseMore(base: seq<DeckEntry>, i: nat, data: DeckData, inp: DeckInput)
    requires i < |base|
    ensures BaseCards(base[..i + 1], data, inp) == BaseCards(base[..i], data, inp) + EntryCards(base[i], data, inp)
  {
    assert base[..i + 1][..i] == base[..i];
  }

  method BaseList(data: DeckData, inp: DeckInput) returns (cards: seq<string>)
    ensures cards == BaseCards(data.base, data, inp)
  {
    cards := [];
    for i := 0 to |data.base|
      invariant cards == BaseCards(data.base[..i], data, inp)
    {
      BaseMore(data.base, i, data, inp);
      var more := CardsOfEntry(data.base[i], data, inp);
      cards := cards + more;
    }
    assert data.base[..|data.base|] == data.base;
  }

  method ComposeDefaultDeck(data: DeckData, inp: DeckInput) returns (deck: seq<string>)
    ensures deck == DeckOf(Leading(inp) + BaseCards(data.base, data, inp), inp)
  {
    var cards: seq<string> := [];
    if Given(inp.sharedCard) {
      cards := cards + [inp.sharedCard.value];
    }
    if Given(inp.country) {
      cards := cards + ["gnews-" + inp.lower(inp.country.value)];
    }
    var base := BaseList(data, inp);
    assert cards == Leading(inp);
    deck := Finalize(cards + base, inp);
  }

  lemma FirstApart(cards: seq<string>, more: seq<string>)
    requires cards != []
    ensures [cards[0]] + (cards[1..] + more) == cards + more
  {}

  lemma AcceptedFirstLeads(first: string, more: seq<string>, inp: DeckInput)
    requires Accepted(inp, first)
    ensures DeckOf([first] + more, inp) != [] && DeckOf([first] + more, inp)[0] == first
  {
    PickedFixed([first], inp);
    PickedPrefix([first], more, inp);
    assert Picked([first] + more, inp)[0] == first;
  }

  /** What may come before everything else: a shared card, then the country's. */
  lemma CountryCardComesFirst(data: DeckData, inp: DeckInput, country: string)
    requires inp.country == Some(country) && |country| > 0 && (inp.sharedCard.None? || inp.sharedCard == Some(""))
    requires var card := "gnews-" + inp.lower(country); inp.known(card) && !inp.disabled(card) && !inp.fallback(card)
    ensures var deck := DeckOf(Leading(inp) + BaseCards(data.base, data, inp), inp);
      deck != [] && deck[0] == "gnews-" + inp.lower(country)
  {
    assert Leading(inp) == [] + ["gnews-" + inp.lower(country)];
    assert ("gnews-" + inp.lower(country))[0] != "weather"[0];
    LeaderComesFirst(data, inp);
  }

  lemma SharedCardComesFirst(data: DeckData, inp: DeckInput, card: string)
    requires inp.sharedCard == Some(card) && |card| > 0 && card != "weather"
    requires inp.known(card) && !inp.disabled(card) && !inp.fallback(card)
    ensures var deck := DeckOf(Leading(inp) + BaseCards(data.base, data, inp), inp); deck != [] && deck[0] == card
  {
    LeaderComesFirst(data, inp);
  }

  /** With nothing shared, an accepted country card comes first; with something
      shared and accepted, that does. */
  lemma LeaderComesFirst(data: DeckData, inp: DeckInput)
    requires Leading(inp) != [] && Accepted(inp, Leading(inp)[0])
    ensures var deck := DeckOf(Leading(inp) + BaseCards(data.base, data, inp), inp);
      deck != [] && deck[0] == Leading(inp)[0]
  {
    var leading, base := Leading(inp), BaseCards(data.base, data, inp);
    AcceptedFirstLeads(leading[0], leading[1..] + base, inp);
    FirstApart(leading, base);
  }
}
