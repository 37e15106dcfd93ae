/** The "Add visit" search (add-visit-panel.tsx): what it finds, and what it shows on the map as it is typed. */
module VisitSearch {
  import opened Options
  import opened Sequences
  import opened Sorting
  import opened Text

  // ----- `normalise`

  /** Everything before the first letter or digit dropped. */
  function AfterBlanks(s: string): (rest: string)
    ensures |rest| <= |s|
    ensures |rest| > 0 ==> Alnum(rest[0])
  {
    if |s| == 0 || Alnum(s[0]) then s else AfterBlanks(s[1..])
  }

  /** `replace(/[^a-z0-9]+/g, ' ')`: every run of other characters becomes one blank. */
  function Collapse(s: string): string
    decreases |s|
  {
    if |s| == 0 then ""
    else if Alnum(s[0]) then [s[0]] + Collapse(s[1..])
    else " " + Collapse(AfterBlanks(s[1..]))
  }

  function TrimStart(s: string): string {
    if |s| > 0 && s[0] == ' ' then TrimStart(s[1..]) else s
  }

  function TrimEnd(s: string): string {
    if |s| > 0 && s[|s| - 1] == ' ' then TrimEnd(s[..|s| - 1]) else s
  }

  /** Lower case, punctuation dropped. After the replacement a blank is the only white space left to trim. */
  function Normalise(text: string): string {
    TrimStart(TrimEnd(Collapse(Lower(text))))
  }

  lemma {:induction false} TrimEndCons(c: char, s: string)
    ensures TrimEnd([c] + s) == if TrimEnd(s) == "" && c == ' ' then "" else [c] + TrimEnd(s)
  {
    if |s| == 0 {
      assert [c] + s == [c] && [c][..0] == "";
    } else if s[|s| - 1] == ' ' {
      TrimEndCons(c, s[..|s| - 1]);
      assert ([c] + s)[..|s|] == [c] + s[..|s| - 1];
    }
  }

  lemma {:induction false} BlanksHoldNoWords(s: string)
    ensures WordsOf(AfterBlanks(s)) == WordsOf(s)
  {
    if |s| == 0 || Alnum(s[0]) {
    } else {
      BlanksHoldNoWords(s[1..]);
      assert Pieces(s)[1..] == Pieces(s[1..]);
    }
  }

  /** The words of a text that opens with a letter or a digit, one character at a time. */
  lemma FirstWordGrows(s: string)
    requires |s| > 0 && Alnum(s[0])
    ensures var words, later := WordsOf(s), WordsOf(s[1..]);
            if |s| > 1 && Alnum(s[1]) then
              |later| > 0 && words == [[s[0]] + later[0]] + later[1..]
            else words == [[s[0]]] + later
  {
    var p := Pieces(s[1..]);
    assert p == [p[0]] + p[1..];
    assert Pieces(s)[1..] == p[1..] && Pieces(s)[0] == [s[0]] + p[0];
    if !(|s| > 1 && Alnum(s[1])) {
      assert p[0] == "";
      assert [s[0]] + p[0] == [s[0]];
    }
  }

  lemma JoinFirst(first: string, rest: seq<string>)
    ensures Join([first] + rest, ' ') == if |rest| == 0 then first else first + " " + Join(rest, ' ')
  {
    assert ([first] + rest)[1..] == rest;
  }

  lemma JoinGrows(c: char, rest: seq<string>)
    ensures |rest| > 0 ==> Join([[c] + rest[0]] + rest[1..], ' ') == [c] + Join(rest, ' ')
    ensures Join([[c]] + rest, ' ') == if |rest| == 0 then [c] else [c] + (" " + Join(rest, ' '))
  {
    JoinFirst([c], rest);
    if |rest| > 0 {
      AssociatesThrice([c], "", " ", Join(rest, ' '));
      JoinFirst([c] + rest[0], rest[1..]);
      JoinFirst(rest[0], rest[1..]);
      assert [rest[0]] + rest[1..] == rest;
      AssociatesThrice([c], rest[0], " ", Join(rest[1..], ' '));
    }
  }

  lemma AssociatesThrice(a: string, b: string, c: string, d: string)
    ensures (a + b) + c + d == a + (b + c + d)
    ensures a + c + d == a + (c + d)
  {
  }

  /** The words joined by blanks, behind one blank if anything else came before the first. */
  function Joined(s: string): string {
    (if |s| > 0 && !Alnum(s[0]) && |WordsOf(s)| > 0 then " " else "") + Join(WordsOf(s), ' ')
  }

  lemma JoinedAfterAlnum(s: string)
    requires |s| > 0 && Alnum(s[0])
    ensures Joined(s) == [s[0]] + Joined(s[1..])
  {
    var later := WordsOf(s[1..]);
    FirstWordGrows(s);
    JoinGrows(s[0], later);
    assert [s[0]] + "" == [s[0]];
    assert "" + Join(WordsOf(s), ' ') == Join(WordsOf(s), ' ');
    assert "" + Join(later, ' ') == Join(later, ' ');
    assert |s| == 1 ==> later == [];
  }

  lemma JoinedAfterBlank(s: string)
    requires |s| > 0 && !Alnum(s[0])
    ensures Joined(s) == if Joined(AfterBlanks(s[1..])) == "" then "" else " " + Joined(AfterBlanks(s[1..]))
  {
    var rest := AfterBlanks(s[1..]);
    BlanksHoldNoWords(s[1..]);
    assert Pieces(s)[1..] == Pieces(s[1..]) && Pieces(s)[0] == "";
    assert WordsOf(s) == WordsOf(rest);
    assert "" + Join(WordsOf(rest), ' ') == Join(WordsOf(rest), ' ');
    JoinedWordsAreNotEmpty(WordsOf(rest));
  }

  /** Collapsing and trimming the end leaves the words joined. */
  lemma {:induction false} CollapsedIsJoined(s: string)
    ensures TrimEnd(Collapse(s)) == Joined(s)
    decreases |s|
  {
    if |s| == 0 {
    } else if Alnum(s[0]) {
      CollapsedIsJoined(s[1..]);
      TrimEndCons(s[0], Collapse(s[1..]));
      JoinedAfterAlnum(s);
    } else {
      var rest := AfterBlanks(s[1..]);
      CollapsedIsJoined(rest);
      TrimEndCons(' ', Collapse(rest));
      JoinedAfterBlank(s);
      assert [' '] + Joined(rest) == " " + Joined(rest);
    }
  }

  lemma JoinedWordsAreNotEmpty(words: seq<string>)
    ensures |words| > 0 && |words[0]| > 0 ==> |Join(words, ' ')| > 0 && Join(words, ' ')[0] == words[0][0]
    ensures |words| == 0 ==> Join(words, ' ') == ""
  {
  }

  lemma TrimmedStart(s: string)
    requires s == "" || s[0] != ' '
    ensures TrimStart(s) == s && TrimStart(" " + s) == s
  {
    assert (" " + s)[1..] == s;
  }

  /** `normalise` is exactly the words of the text, lower case, joined by single blanks. */
  lemma NormaliseIsItsWords(text: string)
    ensures Normalise(text) == Join(Words(text), ' ')
    ensures AreWords(Words(text))
  {
    var words := Words(text);
    CollapsedIsJoined(Lower(text));
    WordsAreWords(Lower(text));
    assert |words| > 0 ==> IsWord(words[0]) && Alnum(words[0][0]);
    JoinedWordsAreNotEmpty(words);
    TrimmedStart(Join(words, ' '));
    assert "" + Join(words, ' ') == Join(words, ' ');
  }

  lemma {:induction false} LowerLeavesWords(s: string)
    requires forall i :: 0 <= i < |s| ==> Alnum(s[i]) || s[i] == ' '
    ensures Lower(s) == s
  {
    if |s| == 0 {
    } else {
      LowerLeavesWords(s[1..]);
      assert s == [s[0]] + s[1..];
    }
  }

  lemma {:induction false} JoinedCharacters(words: seq<string>)
    requires AreWords(words)
    ensures forall i :: 0 <= i < |Join(words, ' ')| ==> Alnum(Join(words, ' ')[i]) || Join(words, ' ')[i] == ' '
  {
    if |words| <= 1 {
    } else {
      JoinedCharacters(words[1..]);
    }
  }

  /** Normalising keeps the words, so doing it twice is doing it once. */
  lemma NormaliseKeepsWords(text: string)
    ensures Words(Normalise(text)) == Words(text)
    ensures Normalise(Normalise(text)) == Normalise(text)
  {
    var words := Words(text);
    NormaliseIsItsWords(text);
    JoinedCharacters(words);
    LowerLeavesWords(Normalise(text));
    if |words| > 0 {
      PiecesOfJoined(words);
      forall w | w in words ensures NonEmpty()(w) {
        var i :| 0 <= i < |words| && words[i] == w;
        assert IsWord(words[i]);
      }
      FilterAll(words, NonEmpty());
    }
    NormaliseIsItsWords(Normalise(text));
  }

  // ----- `matchesSearch`

  function QueryWords(query: string): seq<string> {
    Filter(Split(Normalise(query), ' '), NonEmpty())
  }

  /** Splitting the normal form gives its words back; an empty one gives none. */
  lemma QueryWordsAreWords(query: string)
    ensures QueryWords(query) == Words(query)
  {
    var words := Words(query);
    NormaliseIsItsWords(query);
    if |words| > 0 {
      forall w | w in words ensures ' ' !in w && NonEmpty()(w) {
        var i :| 0 <= i < |words| && words[i] == w;
        assert IsWord(words[i]);
      }
      SplitJoin(words, ' ');
      FilterAll(words, NonEmpty());
    }
  }

  ghost predicate MatchesSearch(haystack: string, query: string) {
    && |QueryWords(query)| > 0
    && forall word :: word in QueryWords(query) ==> Includes(Normalise(haystack), word)
  }

  /** What a match means: there is a word to look for, and each one stands in some word of the haystack. */
  lemma MatchMeansEveryWord(haystack: string, query: string)
    ensures MatchesSearch(haystack, query) <==>
            && |Words(query)| > 0
            && forall word :: word in Words(query) ==> exists v :: v in Words(haystack) && Includes(v, word)
  {
    QueryWordsAreWords(query);
    NormaliseIsItsWords(haystack);
    WordsAreWords(Lower(query));
    forall word | word in Words(query)
      ensures Includes(Normalise(haystack), word) <==> exists v :: v in Words(haystack) && Includes(v, word)
    {
      IncludedInJoined(Words(haystack), word);
    }
  }

  /** Only the set of words counts: neither case, punctuation, order nor repetition, on either side. */
  lemma MatchDependsOnWords(h1: string, q1: string, h2: string, q2: string)
    requires forall w :: w in Words(q1) <==> w in Words(q2)
    requires forall w :: w in Words(h1) <==> w in Words(h2)
    ensures MatchesSearch(h1, q1) <==> MatchesSearch(h2, q2)
  {
    MatchMeansEveryWord(h1, q1);
    MatchMeansEveryWord(h2, q2);
    if |Words(q1)| > 0 {
      assert Words(q1)[0] in Words(q2);
    }
    if |Words(q2)| > 0 {
      assert Words(q2)[0] in Words(q1);
    }
  }

  /** Nor does the case of a single character, on either side. */
  lemma MatchDoesNotKnowCase(h1: string, q1: string, h2: string, q2: string)
    requires SameButForCase(h1, h2) && SameButForCase(q1, q2)
    ensures MatchesSearch(h1, q1) <==> MatchesSearch(h2, q2)
  {
    CaseDoesNotMatter(h1, h2);
    CaseDoesNotMatter(q1, q2);
    MatchDependsOnWords(h1, q1, h2, q2);
  }

  lemma MatchIgnoresNormalising(haystack: string, query: string)
    ensures MatchesSearch(haystack, query) <==> MatchesSearch(Normalise(haystack), Normalise(query))
  {
    NormaliseKeepsWords(haystack);
    NormaliseKeepsWords(query);
    MatchDependsOnWords(haystack, query, Normalise(haystack), Normalise(query));
  }

  /** Typing narrows: with a word already typed, whatever matches the longer query matched the shorter one. */
  lemma TypingNarrows(haystack: string, query: string, typed: string)
    requires |Words(query)| > 0 && MatchesSearch(haystack, query + typed)
    ensures MatchesSearch(haystack, query)
  {
    MatchMeansEveryWord(haystack, query + typed);
    MatchMeansEveryWord(haystack, query);
    LowerAppend(query, typed);
    forall word | word in Words(query) ensures exists v :: v in Words(haystack) && Includes(v, word) {
      var longer := WordsOnlyGrow(Lower(query), Lower(typed), word);
      var v :| v in Words(haystack) && Includes(v, longer);
      PrefixIncluded(v, longer, word);
    }
  }

  // ----- What the panel lists

  datatype Building = Building(id: string, name: Option<string>, addressLine1: Option<string>, city: Option<string>)

  datatype Visit = Visit(id: string, cancelled: bool, finished: bool, building: Option<Building>,
    unitName: Option<string>)

  datatype Property = Property(id: string, name: string, addressLine1: Option<string>, city: Option<string>,
    postalCode: Option<string>)

  /** `[...].filter(Boolean).join(' ')` */
  function Said(fields: seq<Option<string>>): string {
    Join(Present(fields), ' ')
  }

  function Present(fields: seq<Option<string>>): seq<string> {
    if |fields| == 0 then []
    else (if Truthy(fields[0]) then [fields[0].value] else []) + Present(fields[1..])
  }

  function VisitText(visit: Visit): string {
    if visit.building.Some? then
      Said([visit.building.value.name, visit.building.value.addressLine1, visit.building.value.city, visit.unitName])
    else Said([visit.unitName])
  }

  function PropertyText(property: Property): string {
    Said([Some(property.name), property.addressLine1, property.city, property.postalCode])
  }

  predicate Searching(query: string) {
    |Normalise(query)| >= 2
  }

  ghost predicate Listed(query: string, visit: Visit) {
    !visit.cancelled && !visit.finished && (Searching(query) ==> MatchesSearch(VisitText(visit), query))
  }

  ghost function ListedFor(query: string): Visit -> bool {
    (visit: Visit) => Listed(query, visit)
  }

  ghost function Visits(items: seq<Visit>, query: string): seq<Visit> {
    Filter(items, ListedFor(query))
  }

  ghost function FoundBy(query: string): Property -> bool {
    (property: Property) => MatchesSearch(PropertyText(property), query)
  }

  /** A word of one of some texts. */
  predicate WordOfOne(parts: seq<string>, word: string) {
    exists i :: 0 <= i < |parts| && word in Words(parts[i])
  }

  lemma WordOfOneMore(first: string, rest: seq<string>, word: string)
    ensures WordOfOne([first] + rest, word) <==> word in Words(first) || WordOfOne(rest, word)
  {
    var all := [first] + rest;
    if i :| 0 <= i < |rest| && word in Words(rest[i]) {
      assert all[i + 1] == rest[i];
    }
    assert all[0] == first;
  }

  lemma {:induction false} WordsOfJoined(parts: seq<string>, word: string)
    ensures word in Words(Join(parts, ' ')) <==> WordOfOne(parts, word)
  {
    if |parts| == 0 {
      RunIsAWord("");
    } else {
      var first, rest := parts[0], parts[1..];
      assert parts == [first] + rest;
      WordOfOneMore(first, rest, word);
      if |rest| > 0 {
        WordsOfJoined(rest, word);
        BreakDividesWords(first, ' ', Join(rest, ' '));
      }
    }
  }

  /** A word of some fields put together is a word of one that is there. */
  predicate SaidIn(fields: seq<Option<string>>, word: string) {
    exists i :: 0 <= i < |fields| && fields[i].Some? && word in Words(fields[i].value)
  }

  lemma SaidInMore(first: Option<string>, rest: seq<Option<string>>, word: string)
    ensures SaidIn([first] + rest, word) <==> (first.Some? && word in Words(first.value)) || SaidIn(rest, word)
  {
    var all := [first] + rest;
    if i :| 0 <= i < |rest| && rest[i].Some? && word in Words(rest[i].value) {
      assert all[i + 1] == rest[i];
    }
    assert all[0] == first;
  }

  lemma {:induction false} WordsOfPresent(fields: seq<Option<string>>, word: string)
    ensures SaidIn(fields, word) <==> WordOfOne(Present(fields), word)
  {
    if |fields| == 0 {
    } else {
      var first, rest := fields[0], fields[1..];
      assert fields == [first] + rest;
      WordsOfPresent(rest, word);
      SaidInMore(first, rest, word);
      RunIsAWord("");
      if Truthy(first) {
        WordOfOneMore(first.value, Present(rest), word);
      } else {
        assert [] + Present(rest) == Present(rest);
      }
    }
  }

  /** A query word is part of a word of the fields. */
  ghost predicate FoundIn(fields: seq<Option<string>>, word: string) {
    exists v :: SaidIn(fields, v) && Includes(v, word)
  }

  lemma FoundInSaid(fields: seq<Option<string>>, word: string)
    ensures FoundIn(fields, word) <==> exists v :: v in Words(Said(fields)) && Includes(v, word)
  {
    forall v ensures v in Words(Said(fields)) <==> SaidIn(fields, v) {
      WordsOfJoined(Present(fields), v);
      WordsOfPresent(fields, v);
    }
  }

  lemma SearchedFields(fields: seq<Option<string>>, query: string)
    ensures MatchesSearch(Said(fields), query) <==>
            |Words(query)| > 0 && forall word :: word in Words(query) ==> FoundIn(fields, word)
  {
    MatchMeansEveryWord(Said(fields), query);
    forall word ensures FoundIn(fields, word) <==> exists v :: v in Words(Said(fields)) && Includes(v, word) {
      FoundInSaid(fields, word);
    }
  }

  /** A word of the property's name, street, city or postal code. */
  predicate NamesProperty(p: Property, v: string) {
    || v in Words(p.name)
    || (p.addressLine1.Some? && v in Words(p.addressLine1.value))
    || (p.city.Some? && v in Words(p.city.value))
    || (p.postalCode.Some? && v in Words(p.postalCode.value))
  }

  /** A word of the building's name, street or city, if there is one, or of the unit's name. */
  predicate NamesVisit(visit: Visit, v: string) {
    || (visit.building.Some? && visit.building.value.name.Some? && v in Words(visit.building.value.name.value))
    || (visit.building.Some? && visit.building.value.addressLine1.Some?
        && v in Words(visit.building.value.addressLine1.value))
    || (visit.building.Some? && visit.building.value.city.Some? && v in Words(visit.building.value.city.value))
    || (visit.unitName.Some? && v in Words(visit.unitName.value))
  }

  /** A property is found by its own words: there is one to look for, and each is part of one of them. */
  lemma PropertyIsFoundByItsWords(p: Property, query: string)
    ensures MatchesSearch(PropertyText(p), query) <==>
            && |Words(query)| > 0
            && forall word :: word in Words(query) ==> exists v :: NamesProperty(p, v) && Includes(v, word)
  {
    var fields := [Some(p.name), p.addressLine1, p.city, p.postalCode];
    SearchedFields(fields, query);
    forall v ensures SaidIn(fields, v) <==> NamesProperty(p, v) {
      FourFields(fields[0], fields[1], fields[2], fields[3], v);
    }
    assert forall word :: FoundIn(fields, word) <==> exists v :: NamesProperty(p, v) && Includes(v, word);
  }

  lemma FourFields(a: Option<string>, b: Option<string>, c: Option<string>, d: Option<string>, v: string)
    ensures SaidIn([a, b, c, d], v) <==>
            || (a.Some? && v in Words(a.value)) || (b.Some? && v in Words(b.value))
            || (c.Some? && v in Words(c.value)) || (d.Some? && v in Words(d.value))
    ensures SaidIn([a], v) <==> a.Some? && v in Words(a.value)
  {
    SaidInMore(a, [], v);
    SaidInMore(c, [d], v);
    SaidInMore(d, [], v);
    SaidInMore(b, [c, d], v);
    SaidInMore(a, [b, c, d], v);
    assert [a] + [] == [a] && [d] + [] == [d] && [c] + [d] == [c, d];
    assert [b] + [c, d] == [b, c, d] && [a] + [b, c, d] == [a, b, c, d];
  }

  /** ... and a visit by its building's and its unit's. */
  lemma VisitIsFoundByItsWords(visit: Visit, query: string)
    ensures MatchesSearch(VisitText(visit), query) <==>
            && |Words(query)| > 0
            && forall word :: word in Words(query) ==> exists v :: NamesVisit(visit, v) && Includes(v, word)
  {
    if visit.building.Some? {
      var b := visit.building.value;
      SearchedFields([b.name, b.addressLine1, b.city, visit.unitName], query);
      forall v ensures SaidIn([b.name, b.addressLine1, b.city, visit.unitName], v) <==> NamesVisit(visit, v) {
        FourFields(b.name, b.addressLine1, b.city, visit.unitName, v);
      }
    } else {
      SearchedFields([visit.unitName], query);
      forall v ensures SaidIn([visit.unitName], v) <==> NamesVisit(visit, v) {
        FourFields(visit.unitName, None, None, None, v);
      }
    }
  }

  /** `localeCompare(...) <= 0` on the names. */
  function ByName(locale: (string, string) -> bool): (Property, Property) -> bool {
    (left: Property, right: Property) => locale(left.name, right.name)
  }

  lemma ByNameIsPreorder(locale: (string, string) -> bool)
    requires TotalPreorder(locale)
    ensures TotalPreorder(ByName(locale))
  {
    var le := ByName(locale);
    forall a, b ensures le(a, b) || le(b, a) {
      assert locale(a.name, b.name) || locale(b.name, a.name);
    }
    forall a, b, c | le(a, b) && le(b, c) ensures le(a, c) {
      assert locale(a.name, b.name) && locale(b.name, c.name) ==> locale(a.name, c.name);
    }
  }

  ghost function Matches(properties: seq<Property>, query: string, locale: (string, string) -> bool): seq<Property> {
    if Searching(query) then StableSort(Filter(properties, FoundBy(query)), ByName(locale)) else []
  }

  /** What is listed: open visits, those that match once two characters are typed, and then the properties by name. */
  lemma ListsAreExactly(items: seq<Visit>, properties: seq<Property>, query: string, locale: (string, string) -> bool)
    requires TotalPreorder(locale)
    ensures forall v :: v in Visits(items, query) <==>
              && v in items && !v.cancelled && !v.finished
              && (|Normalise(query)| >= 2 ==> MatchesSearch(VisitText(v), query))
    ensures forall p :: p in Matches(properties, query, locale) <==>
              |Normalise(query)| >= 2 && p in properties && MatchesSearch(PropertyText(p), query)
    ensures var found := Matches(properties, query, locale);
            forall i, j :: 0 <= i < j < |found| ==> locale(found[i].name, found[j].name)
  {
    ByNameIsPreorder(locale);
    StableSortMembers(Filter(properties, FoundBy(query)), ByName(locale));
    StableSortSorts(Filter(properties, FoundBy(query)), ByName(locale));
  }

  /** Two characters of normal form hold a word, and typing never takes a word or a character away. */
  lemma SearchingStays(query: string, typed: string)
    requires Searching(query)
    ensures |Words(query)| > 0 && Searching(query + typed)
  {
    NormaliseIsItsWords(query);
    NormaliseIsItsWords(query + typed);
    LowerAppend(query, typed);
    var p, q := Pieces(Lower(query)), Pieces(Lower(typed));
    PiecesAppend(Lower(query), Lower(typed));
    JoinedGrows(p, q);
    assert Words(query + typed) == Filter(Glue(p, q), NonEmpty());
  }

  lemma JoinedGrows(p: seq<string>, q: seq<string>)
    requires |p| > 0 && |q| > 0
    ensures |Join(Filter(Glue(p, q), NonEmpty()), ' ')| >= |Join(Filter(p, NonEmpty()), ' ')|
  {
    var front, last := p[..|p| - 1], p[|p| - 1];
    var kept, tail := Filter(front, NonEmpty()), Filter(q[1..], NonEmpty());
    FilterAppend(front + [last + q[0]], q[1..], NonEmpty());
    FilterAppend(front, [last + q[0]], NonEmpty());
    FilterAppend(front, [last], NonEmpty());
    assert p == front + [last];
    var was := if |last| > 0 then [last] else [];
    var now := if |last + q[0]| > 0 then [last + q[0]] else [];
    assert Filter([last], NonEmpty()) == was && Filter([last + q[0]], NonEmpty()) == now;
    assert Filter(Glue(p, q), NonEmpty()) == kept + now + tail;
    assert Filter(p, NonEmpty()) == kept + was;
    JoinLength(kept, was, now);
    JoinLength(kept + now, [], tail);
    assert kept + now + [] == kept + now;
  }

  lemma {:induction false} JoinLength(kept: seq<string>, was: seq<string>, now: seq<string>)
    requires |was| <= 1 && (|was| == 1 ==> |now| > 0 && |was[0]| <= |now[0]|)
    ensures |Join(kept + now, ' ')| >= |Join(kept + was, ' ')|
  {
    if |kept| == 0 {
      assert kept + now == now && kept + was == was;
    } else {
      JoinLength(kept[1..], was, now);
      assert (kept + now)[1..] == kept[1..] + now && (kept + was)[1..] == kept[1..] + was;
    }
  }

  /** Once searching, what is typed only takes properties off the list; the rest keep their order. */
  lemma TypingNarrowsProperties(
    properties: seq<Property>, query: string, typed: string, locale: (string, string) -> bool)
    requires TotalPreorder(locale) && Searching(query)
    ensures Matches(properties, query + typed, locale) ==
            Filter(Matches(properties, query, locale), FoundBy(query + typed))
  {
    SearchingStays(query, typed);
    ByNameIsPreorder(locale);
    SortFilter(Filter(properties, FoundBy(query)), ByName(locale), FoundBy(query + typed));
    forall p | p in properties ensures FoundBy(query + typed)(p) == (FoundBy(query)(p) && FoundBy(query + typed)(p)) {
      if FoundBy(query + typed)(p) {
        TypingNarrows(PropertyText(p), query, typed);
      }
    }
    FilterTwice(properties, FoundBy(query), FoundBy(query + typed), FoundBy(query + typed));
  }

  /** The day's visits only shrink, from the first keystroke. */
  lemma TypingNarrowsVisits(items: seq<Visit>, query: string, typed: string)
    ensures Visits(items, query + typed) == Filter(Visits(items, query), ListedFor(query + typed))
  {
    forall v | v in items ensures ListedFor(query + typed)(v) == (ListedFor(query)(v) && ListedFor(query + typed)(v)) {
      if ListedFor(query + typed)(v) && Searching(query) {
        SearchingStays(query, typed);
        TypingNarrows(VisitText(v), query, typed);
      }
    }
    FilterTwice(items, ListedFor(query), ListedFor(query + typed), ListedFor(query + typed));
  }

  // ----- What the map is shown

  predicate HasBuilding(visit: Visit) {
    visit.building.Some? && visit.building.value.id != ""
  }

  /** The ids in a `Set`, in the order they were added: each the first time it comes. */
  function Unique(ids: seq<string>): seq<string> {
    if |ids| == 0 then []
    else
      var before := Unique(ids[..|ids| - 1]);
      if ids[|ids| - 1] in before then before else before + [ids[|ids| - 1]]
  }

  lemma {:induction false} UniqueIsASet(ids: seq<string>)
    ensures Distinct(Unique(ids))
    ensures forall id :: id in Unique(ids) <==> id in ids
  {
    if |ids| == 0 {
    } else {
      UniqueIsASet(ids[..|ids| - 1]);
      assert ids == ids[..|ids| - 1] + [ids[|ids| - 1]];
    }
  }

  function BuildingIds(visits: seq<Visit>): seq<string> {
    if |visits| == 0 then []
    else BuildingIds(visits[..|visits| - 1]) +
         if HasBuilding(visits[|visits| - 1]) then [visits[|visits| - 1].building.value.id] else []
  }

  function PropertyIds(properties: seq<Property>): seq<string> {
    if |properties| == 0 then []
    else PropertyIds(properties[..|properties| - 1]) + [properties[|properties| - 1].id]
  }

  method ShownIds(visits: seq<Visit>, matches: seq<Property>) returns (ids: seq<string>)
    ensures ids == Unique(BuildingIds(visits) + PropertyIds(matches))
  {
    ids := [];
    for i := 0 to |visits|
      invariant ids == Unique(BuildingIds(visits[..i]))
    {
      assert visits[..i + 1][..i] == visits[..i];
      if HasBuilding(visits[i]) {
        var id := visits[i].building.value.id;
        AddedToSet(BuildingIds(visits[..i]), id);
        if id !in ids {
          ids := ids + [id];
        }
      } else {
        assert BuildingIds(visits[..i]) + [] == BuildingIds(visits[..i]);
      }
    }
    assert visits[..|visits|] == visits;
    assert BuildingIds(visits) + PropertyIds(matches[..0]) == BuildingIds(visits);
    for i := 0 to |matches|
      invariant ids == Unique(BuildingIds(visits) + PropertyIds(matches[..i]))
    {
      assert matches[..i + 1][..i] == matches[..i];
      var id := matches[i].id;
      AddedToSet(BuildingIds(visits) + PropertyIds(matches[..i]), id);
      assert BuildingIds(visits) + PropertyIds(matches[..i + 1]) ==
             BuildingIds(visits) + PropertyIds(matches[..i]) + [id];
      if id !in ids {
        ids := ids + [id];
      }
    }
    assert matches[..|matches|] == matches;
  }

  lemma {:induction false} BuildingIdsAreTheVisits(visits: seq<Visit>, id: string)
    ensures id in BuildingIds(visits) <==>
            id != "" && exists i :: 0 <= i < |visits| && visits[i].building.Some? && visits[i].building.value.id == id
  {
    if |visits| == 0 {
    } else {
      BuildingIdsAreTheVisits(visits[..|visits| - 1], id);
    }
  }

  lemma {:induction false} PropertyIdsAreTheirs(properties: seq<Property>, id: string)
    ensures id in PropertyIds(properties) <==> exists i :: 0 <= i < |properties| && properties[i].id == id
  {
    if |properties| == 0 {
    } else {
      PropertyIdsAreTheirs(properties[..|properties| - 1], id);
    }
  }

  /** The map is shown every building with a listed visit and every property found, each once. */
  lemma ShownIdsAreExactly(visits: seq<Visit>, matches: seq<Property>, id: string)
    ensures Distinct(Unique(BuildingIds(visits) + PropertyIds(matches)))
    ensures id in Unique(BuildingIds(visits) + PropertyIds(matches)) <==>
            || (&& id != ""
                && exists i :: 0 <= i < |visits| && visits[i].building.Some? && visits[i].building.value.id == id)
            || exists i :: 0 <= i < |matches| && matches[i].id == id
  {
    UniqueIsASet(BuildingIds(visits) + PropertyIds(matches));
    BuildingIdsAreTheVisits(visits, id);
    PropertyIdsAreTheirs(matches, id);
  }

  lemma AddedToSet(ids: seq<string>, id: string)
    ensures Unique(ids + [id]) == Unique(ids) + if id in Unique(ids) then [] else [id]
  {
    assert (ids + [id])[..|ids|] == ids;
  }

  /** What `onSearchChange` is told: the key split again, or nothing when it is empty. */
  function Told(ids: seq<string>): seq<string> {
    var key := Join(ids, '|');
    if key == "" then [] else Split(key, '|')
  }

  /** The map is told the very ids that are listed exactly when no id holds the separator and none alone is empty. */
  lemma MapIsToldWhatIsListed(ids: seq<string>)
    ensures Told(ids) == ids <==> ids != [""] && forall id :: id in ids ==> '|' !in id
  {
    SplitJoinExactly(ids, '|');
    if |ids| > 1 {
      assert |Join(ids, '|')| > 0;
    }
  }
}
