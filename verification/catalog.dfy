/** Looking a satellite up by name in a three-line TLE catalog: a name line
    followed by the two element lines, repeated. The lookup is a
    case-insensitive substring match on the stripped name; several hits are
    resolved automatically in JSON mode and otherwise by asking the user for
    a number from a menu of at most ten names. */
module TleCatalog {
  import opened Results
  import opened Text

  /** At most this many matches are offered on the menu. */
  const MenuSize: nat := 10

  /** One catalog record, each line stripped of surrounding whitespace. */
  datatype Entry = Entry(name: string, line1: string, line2: string)

  /** Why a lookup produced no element lines. `query` is the lower-cased
      name, as the error message shows it. */
  datatype LookupError =
    | NotFound(query: string)
    /** The user's answers ran out before a valid number was given. */
    | NoValidChoice

  /** The catalog text stripped and cut at every newline. */
  function CatalogLines(text: string): (r: seq<string>)
    ensures |r| >= 1
    ensures forall i :: 0 <= i < |r| ==> '\n' !in r[i]
    ensures Join(r, '\n') == Strip(text)
  {
    Split(Strip(text), '\n')
  }

  /** Line `j` of `count` lines opens a complete record: the three-step
      scan visits it and two element lines follow it. */
  predicate RecordStart(count: nat, j: int) {
    0 <= j && j % 3 == 0 && j + 2 < count
  }

  /** The lower-cased query occurs in line `j`, stripped and lower-cased. */
  predicate NameMatches(lines: seq<string>, query: string, j: nat)
    requires j < |lines|
  {
    IsSubstring(query, Lower(Strip(lines[j])))
  }

  /** Line `j` opens a record whose name matches. */
  predicate IsMatch(lines: seq<string>, query: string, j: int) {
    RecordStart(|lines|, j) && NameMatches(lines, query, j)
  }

  function EntryAt(lines: seq<string>, j: nat): Entry
    requires j + 2 < |lines|
  {
    Entry(Strip(lines[j]), Strip(lines[j + 1]), Strip(lines[j + 2]))
  }

  /** The outcome of the name test on each line. The scan below only ever
      consults it at record starts. */
  function NameHits(lines: seq<string>, query: string): (r: seq<bool>)
    ensures |r| == |lines|
    ensures forall j :: 0 <= j < |lines| ==> r[j] == NameMatches(lines, query, j)
  {
    seq(|lines|, j requires 0 <= j < |lines| => NameMatches(lines, query, j))
  }

  /** Line `j` opens a record whose name test succeeded. */
  predicate IsHit(hits: seq<bool>, j: int) {
    RecordStart(|hits|, j) && hits[j]
  }

  /** The record starts from line `i` on, in steps of three, whose name test
      succeeded. */
  function HitIndicesFrom(hits: seq<bool>, i: nat): (r: seq<nat>)
    requires i % 3 == 0
    ensures forall k :: 0 <= k < |r| ==> i <= r[k] && IsHit(hits, r[k])
    decreases |hits| - i
  {
    if i + 2 >= |hits| then []
    else if hits[i] then [i] + HitIndicesFrom(hits, i + 3)
    else HitIndicesFrom(hits, i + 3)
  }

  /** Two distinct multiples of three are at least three apart. */
  lemma NextMultipleOfThree(i: int, j: int)
    requires i % 3 == 0 && j % 3 == 0 && i < j
    ensures i + 3 <= j
  {
  }

  /** Every hit from line `i` on is collected. */
  lemma {:induction false} HitIndicesFromComplete(hits: seq<bool>, i: nat, j: nat)
    requires i % 3 == 0 && i <= j && IsHit(hits, j)
    ensures j in HitIndicesFrom(hits, i)
    decreases |hits| - i
  {
    var rest := HitIndicesFrom(hits, i + 3);
    if j == i {
      assert HitIndicesFrom(hits, i) == [i] + rest;
    } else {
      NextMultipleOfThree(i, j);
      HitIndicesFromComplete(hits, i + 3, j);
      assert HitIndicesFrom(hits, i) == rest || HitIndicesFrom(hits, i) == [i] + rest;
    }
  }

  predicate Increasing(r: seq<nat>) {
    forall a, b :: 0 <= a < b < |r| ==> r[a] < r[b]
  }

  /** Putting an element below all of an increasing sequence in front of it
      keeps it increasing. */
  lemma ConsIncreasing(x: nat, rest: seq<nat>)
    requires Increasing(rest) && forall k :: 0 <= k < |rest| ==> x < rest[k]
    ensures Increasing([x] + rest)
  {
    var r := [x] + rest;
    forall a, b | 0 <= a < b < |r|
      ensures r[a] < r[b]
    {
      assert r[b] == rest[b - 1];
      if a > 0 {
        assert r[a] == rest[a - 1];
      }
    }
  }

  /** The collected lines are in strictly increasing order. */
  lemma {:induction false} HitIndicesFromSorted(hits: seq<bool>, i: nat)
    requires i % 3 == 0
    ensures Increasing(HitIndicesFrom(hits, i))
    decreases |hits| - i
  {
    if i + 2 < |hits| {
      var rest := HitIndicesFrom(hits, i + 3);
      HitIndicesFromSorted(hits, i + 3);
      if hits[i] {
        assert HitIndicesFrom(hits, i) == [i] + rest;
        ConsIncreasing(i, rest);
      } else {
        assert HitIndicesFrom(hits, i) == rest;
      }
    }
  }

  /** The matching records' name lines. */
  function MatchIndices(lines: seq<string>, query: string): (r: seq<nat>)
    ensures forall k :: 0 <= k < |r| ==> IsMatch(lines, query, r[k])
  {
    HitIndicesFrom(NameHits(lines, query), 0)
  }

  /** The collected lines are exactly the matching record starts, in
      increasing order. */
  lemma MatchIndicesExact(lines: seq<string>, query: string)
    ensures var r := MatchIndices(lines, query);
            && (forall j :: j in r <==> IsMatch(lines, query, j))
            && Increasing(r)
  {
    var hits := NameHits(lines, query);
    var r := MatchIndices(lines, query);
    assert r == HitIndicesFrom(hits, 0);
    HitIndicesFromSorted(hits, 0);
    forall j
      ensures IsMatch(lines, query, j) ==> j in r
    {
      if IsMatch(lines, query, j) {
        assert hits[j];
        HitIndicesFromComplete(hits, 0, j);
      }
    }
    forall j
      ensures j in r ==> IsMatch(lines, query, j)
    {
      if j in r {
        var k :| 0 <= k < |r| && r[k] == j;
      }
    }
  }

  /** The records opened by the given lines, in the given order. */
  function EntriesAt(lines: seq<string>, idx: seq<nat>): (r: seq<Entry>)
    requires forall k :: 0 <= k < |idx| ==> idx[k] + 2 < |lines|
    ensures |r| == |idx|
  {
    if |idx| == 0 then [] else [EntryAt(lines, idx[0])] + EntriesAt(lines, idx[1..])
  }

  /** The k-th record listed is the one opened by the k-th line. */
  lemma {:induction false} EntriesAtIndex(lines: seq<string>, idx: seq<nat>, k: nat)
    requires forall k :: 0 <= k < |idx| ==> idx[k] + 2 < |lines|
    requires k < |idx|
    ensures EntriesAt(lines, idx)[k] == EntryAt(lines, idx[k])
  {
    if k > 0 {
      EntriesAtIndex(lines, idx[1..], k - 1);
    }
  }

  /** The scan over the records from line `i`, collecting the stripped lines
      of each record whose name test succeeded: exactly the records opened
      at the hit indices. */
  function MatchesFrom(lines: seq<string>, hits: seq<bool>, i: nat): (r: seq<Entry>)
    requires i % 3 == 0 && |hits| == |lines|
    ensures r == EntriesAt(lines, HitIndicesFrom(hits, i))
    decreases |lines| - i
  {
    if i + 2 >= |lines| then []
    else
      var rest := MatchesFrom(lines, hits, i + 3);
      var idx := HitIndicesFrom(hits, i + 3);
      if hits[i] then
        assert HitIndicesFrom(hits, i) == [i] + idx;
        assert ([i] + idx)[1..] == idx;
        [EntryAt(lines, i)] + rest
      else
        assert HitIndicesFrom(hits, i) == idx;
        rest
  }

  /** Every record whose name contains `query`, in catalog order. */
  function Matches(lines: seq<string>, query: string): (r: seq<Entry>)
    ensures r == EntriesAt(lines, MatchIndices(lines, query))
  {
    MatchesFrom(lines, NameHits(lines, query), 0)
  }

  // ---------------------------------------------------------------------
  // Choosing among several matches.

  function Min(a: nat, b: nat): nat { if a <= b then a else b }

  /** The menu: the first ten names, numbered from one. */
  function MenuLines(matches: seq<Entry>): (r: seq<string>)
    ensures |r| == Min(|matches|, MenuSize)
    ensures forall k :: 0 <= k < |r| ==> r[k] == NatDigits(k + 1) + ". " + matches[k].name
  {
    seq(Min(|matches|, MenuSize), k requires 0 <= k < Min(|matches|, MenuSize) =>
      NatDigits(k + 1) + ". " + matches[k].name)
  }

  /** One typed answer: a non-empty run of digits naming a menu entry,
      taken as the zero-based index of that entry. */
  function ParseChoice(choice: string, count: nat): (r: Option<nat>)
    ensures r.Some? ==> r.value < count && r.value < MenuSize
    ensures r.Some? <==> |choice| > 0 && AllDigits(choice) && 1 <= DigitsValue(choice) <= Min(count, MenuSize)
    ensures r.Some? ==> r.value == DigitsValue(choice) - 1
    ensures (exists i :: 0 <= i < |choice| && !IsDigit(choice[i])) ==> r.None?
  {
    if |choice| > 0 && AllDigits(choice) && 1 <= DigitsValue(choice) <= Min(count, MenuSize)
    then Some(DigitsValue(choice) - 1)
    else None
  }

  /** The first answer that names a menu entry, as (answer position, entry
      index); the invalid answers before it are each met with a re-prompt. */
  function FirstValid(choices: seq<string>, count: nat): (r: Option<(nat, nat)>)
    ensures r.None? <==> forall p :: 0 <= p < |choices| ==> ParseChoice(choices[p], count).None?
    ensures r.Some? ==> r.value.0 < |choices|
                        && ParseChoice(choices[r.value.0], count) == Some(r.value.1)
                        && forall p :: 0 <= p < r.value.0 ==> ParseChoice(choices[p], count).None?
  {
    if |choices| == 0 then None
    else match ParseChoice(choices[0], count)
      case Some(k) => Some((0, k))
      case None =>
        match FirstValid(choices[1..], count)
        case None => None
        case Some((p, k)) => Some((p + 1, k))
  }

  /** Resolving the matches: none is an error, one or JSON mode takes the
      first, otherwise the first valid answer picks the entry. */
  function Select(matches: seq<Entry>, query: string, jsonMode: bool, choices: seq<string>)
    : (r: Result<(string, string), LookupError>)
    ensures r == Err(NotFound(query)) <==> |matches| == 0
    ensures (|matches| == 1 || (jsonMode && |matches| > 0)) ==>
              r == Ok((matches[0].line1, matches[0].line2))
    ensures r.Ok? ==> exists k :: 0 <= k < |matches| && k < MenuSize
                                  && r.value == (matches[k].line1, matches[k].line2)
    ensures |matches| > 1 && !jsonMode && FirstValid(choices, |matches|).Some? ==>
              var k := FirstValid(choices, |matches|).value.1;
              k < |matches| && r == Ok((matches[k].line1, matches[k].line2))
    ensures r == Err(NoValidChoice) <==>
              |matches| > 1 && !jsonMode
              && forall p :: 0 <= p < |choices| ==> ParseChoice(choices[p], |matches|).None?
  {
    if |matches| == 0 then Err(NotFound(query))
    else if |matches| == 1 || jsonMode then Ok((matches[0].line1, matches[0].line2))
    else
      match FirstValid(choices, |matches|)
      case None => Err(NoValidChoice)
      case Some((_, k)) => Ok((matches[k].line1, matches[k].line2))
  }

  /** `fetch_tle` once the catalog text is at hand: the name is lower-cased,
      the catalog searched, and the matches resolved. */
  function FetchTle(text: string, name: string, jsonMode: bool, choices: seq<string>)
    : (r: Result<(string, string), LookupError>)
    ensures r.Err? && r.error.NotFound? ==> r.error.query == Lower(name)
  {
    var q := Lower(name);
    Select(Matches(CatalogLines(text), q), q, jsonMode, choices)
  }

  // ---------------------------------------------------------------------
  // Properties of the lookup.

  /** The lookup fails with "not found" exactly when no complete record's
      name contains the query, ignoring ASCII case. */
  lemma FetchNotFound(text: string, name: string, jsonMode: bool, choices: seq<string>)
    ensures FetchTle(text, name, jsonMode, choices).Err?
            && FetchTle(text, name, jsonMode, choices).error.NotFound?
            <==> forall j :: !IsMatch(CatalogLines(text), Lower(name), j)
  {
    var lines := CatalogLines(text);
    var q := Lower(name);
    var matches := Matches(lines, q);
    var idx := MatchIndices(lines, q);
    MatchIndicesExact(lines, q);
    assert FetchTle(text, name, jsonMode, choices) == Select(matches, q, jsonMode, choices);
    if |idx| > 0 {
      assert IsMatch(lines, q, idx[0]);
    }
  }

  /** Whatever lines the lookup returns are the stripped element lines of a
      record whose name matches, one of the first ten matches. */
  lemma FetchReturnsMatch(text: string, name: string, jsonMode: bool, choices: seq<string>)
    requires FetchTle(text, name, jsonMode, choices).Ok?
    ensures var lines := CatalogLines(text);
            exists j :: IsMatch(lines, Lower(name), j)
                        && FetchTle(text, name, jsonMode, choices).value
                           == (Strip(lines[j + 1]), Strip(lines[j + 2]))
    ensures var lines := CatalogLines(text);
            var idx := MatchIndices(lines, Lower(name));
            exists k :: 0 <= k < |idx| && k < MenuSize
                        && FetchTle(text, name, jsonMode, choices).value
                           == (Strip(lines[idx[k] + 1]), Strip(lines[idx[k] + 2]))
  {
    var lines := CatalogLines(text);
    var q := Lower(name);
    var matches := Matches(lines, q);
    var idx := MatchIndices(lines, q);
    var r := FetchTle(text, name, jsonMode, choices);
    assert r == Select(matches, q, jsonMode, choices);
    var k :| 0 <= k < |matches| && k < MenuSize && r.value == (matches[k].line1, matches[k].line2);
    assert IsMatch(lines, q, idx[k]);
    EntriesAtIndex(lines, idx, k);
  }

  /** The first match listed is the record at the first matching line. */
  lemma FirstMatchListed(lines: seq<string>, q: string, j: nat)
    requires IsMatch(lines, q, j)
    requires forall i :: 0 <= i < j ==> !IsMatch(lines, q, i)
    ensures 0 < |Matches(lines, q)| && Matches(lines, q)[0] == EntryAt(lines, j)
  {
    var idx := MatchIndices(lines, q);
    MatchIndicesExact(lines, q);
    assert j in idx;
    var a :| 0 <= a < |idx| && idx[a] == j;
    assert idx[0] <= idx[a];
    assert IsMatch(lines, q, idx[0]);
    EntriesAtIndex(lines, idx, 0);
  }

  /** With a single match, or in JSON mode, the lookup returns the record
      that comes first in the catalog among the matching ones. */
  lemma FetchTakesFirst(text: string, name: string, jsonMode: bool, choices: seq<string>, j: nat)
    requires IsMatch(CatalogLines(text), Lower(name), j)
    requires jsonMode || |MatchIndices(CatalogLines(text), Lower(name))| == 1
    requires forall i :: 0 <= i < j ==> !IsMatch(CatalogLines(text), Lower(name), i)
    ensures var lines := CatalogLines(text);
            FetchTle(text, name, jsonMode, choices) == Ok((Strip(lines[j + 1]), Strip(lines[j + 2])))
  {
    var lines := CatalogLines(text);
    var q := Lower(name);
    var matches := Matches(lines, q);
    FirstMatchListed(lines, q, j);
    assert |matches| == |MatchIndices(lines, q)|;
    assert FetchTle(text, name, jsonMode, choices) == Select(matches, q, jsonMode, choices);
  }

  /** The number printed beside a menu name selects that name's record. */
  lemma MenuNumberSelects(matches: seq<Entry>, query: string, choices: seq<string>, k: nat)
    requires |matches| > 1 && k < |MenuLines(matches)|
    requires forall p :: 0 <= p < |choices| ==> ParseChoice(choices[p], |matches|).None?
    ensures MenuLines(matches)[k] == NatDigits(k + 1) + ". " + matches[k].name
    ensures Select(matches, query, false, choices + [NatDigits(k + 1)])
            == Ok((matches[k].line1, matches[k].line2))
  {
    ParseChoiceOfNumber(k, |matches|);
    FirstValidAfterInvalid(choices, NatDigits(k + 1), |matches|, k);
  }

  /** Leading zeros are accepted, as `str.isdigit` and `int` accept them. */
  lemma LeadingZeroAccepted(count: nat)
    requires count >= 1
    ensures ParseChoice("01", count) == Some(0)
  {
    assert DigitsValue("01"[..1]) == 0;
  }

  /** Typing the decimal number of a menu entry chooses it. */
  lemma ParseChoiceOfNumber(k: nat, count: nat)
    requires k < Min(count, MenuSize)
    ensures ParseChoice(NatDigits(k + 1), count) == Some(k)
  {
  }

  /** After a run of invalid answers, a valid one is the one taken. */
  lemma {:induction false} FirstValidAfterInvalid(choices: seq<string>, last: string, count: nat, k: nat)
    requires forall p :: 0 <= p < |choices| ==> ParseChoice(choices[p], count).None?
    requires ParseChoice(last, count) == Some(k)
    ensures FirstValid(choices + [last], count) == Some((|choices|, k))
  {
    if |choices| > 0 {
      assert (choices + [last])[1..] == choices[1..] + [last];
      FirstValidAfterInvalid(choices[1..], last, count, k);
    } else {
      assert choices + [last] == [last];
    }
  }
}
