/** The table of contents: the subtitles between the markers "DFs Individuais" and
    "Pareceres e Declarações" become a dictionary from item name to page number
    (`_get_summary_pages`), and the pages that hold tables are picked from it
    (`get_summary_tables_pages`). */
module Summary {
  import opened Results
  import opened Text
  import opened OrderedMaps

  // ---------------------------------------------------------------------------
  // Classifying one subtitle

  /** What a subtitle contributes: a page number or an item name. */
  datatype Entry = PageNumber(page: nat) | Name(name: string)

  /** A text with a digit run at its head is a page number; otherwise its letter-led
      first line is a name; `None` stands for `.group()` on a failed match. */
  function Classify(t: string): Option<Entry>
  {
    match MatchDigits(t)
    case Some(digits) => Some(PageNumber(DigitsValue(digits)))
    case None =>
      match MatchName(t)
      case Some(name) => Some(Name(name))
      case None => None
  }

  /** The three outcomes of classifying a subtitle. */
  lemma ClassifyCases(t: string)
    ensures |t| > 0 && IsDigit(t[0]) ==>
      Classify(t) == Some(PageNumber(DigitsValue(LeadingDigits(t))))
    ensures |t| > 0 && IsLetter(t[0]) && |FirstLine(t)| >= 2 ==>
      Classify(t) == Some(Name(FirstLine(t)))
    ensures Classify(t).None? <==>
      |t| == 0 || (!IsDigit(t[0]) && (!IsLetter(t[0]) || |FirstLine(t)| < 2))
  {
  }

  /** The numeral of a page, possibly followed by a non-digit, reads back as that page. */
  lemma PageNumberText(n: nat, rest: string)
    requires rest == [] || !IsDigit(rest[0])
    ensures Classify(Decimal(n) + rest) == Some(PageNumber(n))
  {
    LeadingDigitsOfNumeral(Decimal(n), rest);
    DecimalRoundTrip(n);
  }

  /** A letter-led one-line name of two or more characters reads back as that name,
      whatever lines follow it. */
  lemma NameText(name: string, rest: string)
    requires |name| >= 2 && IsLetter(name[0]) && '\n' !in name
    requires rest == [] || rest[0] == '\n'
    ensures Classify(name + rest) == Some(Name(name))
  {
    FirstLineOf(name, rest);
  }

  // ---------------------------------------------------------------------------
  // The two lists `tables_name` and `page`, and the dictionary

  predicate AllClassified(texts: seq<string>) {
    forall i | 0 <= i < |texts| :: Classify(texts[i]).Some?
  }

  /** The names collected from `texts`, in order. */
  function Names(texts: seq<string>): seq<string>
  {
    if texts == [] then []
    else
      Names(texts[..|texts| - 1]) +
      match Classify(texts[|texts| - 1]) case Some(Name(s)) => [s] case _ => []
  }

  /** The page numbers collected from `texts`, in order. */
  function Pages(texts: seq<string>): seq<nat>
  {
    if texts == [] then []
    else
      Pages(texts[..|texts| - 1]) +
      match Classify(texts[|texts| - 1]) case Some(PageNumber(p)) => [p] case _ => []
  }

  function Zip(names: seq<string>, pages: seq<nat>): (r: seq<(string, nat)>)
    requires |names| == |pages|
  {
    seq(|pages|, i requires 0 <= i < |pages| => (names[i], pages[i]))
  }

  /** Pairing one position further adds that position's pair at the end. */
  lemma ZipSnoc(names: seq<string>, pages: seq<nat>, k: nat)
    requires k < |names| && k < |pages|
    ensures Zip(names[..k + 1], pages[..k + 1]) == Zip(names[..k], pages[..k]) + [(names[k], pages[k])]
  {
    var a, b := Zip(names[..k + 1], pages[..k + 1]), Zip(names[..k], pages[..k]) + [(names[k], pages[k])];
    forall i | 0 <= i <= k ensures a[i] == b[i] {
    }
  }

  /** What `_get_summary_pages` returns for the subtitles `texts` of the summary section. */
  function SummaryOf(texts: seq<string>): (r: Result<OrderedMap<nat>>)
    ensures r.Ok? ==> Valid(r.value)
  {
    if !AllClassified(texts) then Err(AttributeError)
    else
      var names, pages := Names(texts), Pages(texts);
      if |names| < |pages| then Err(IndexError)
      else Ok(PutAll(Zip(names[..|pages|], pages)))
  }

  /** One more subtitle extends the list it classifies into and leaves the other as it is. */
  lemma SubtitleStep(texts: seq<string>, i: nat)
    requires i < |texts|
    ensures Classify(texts[i]).Some? && AllClassified(texts[..i]) ==> AllClassified(texts[..i + 1])
    ensures Classify(texts[i]).Some? && Classify(texts[i]).value.PageNumber? ==>
      Pages(texts[..i + 1]) == Pages(texts[..i]) + [Classify(texts[i]).value.page] &&
      Names(texts[..i + 1]) == Names(texts[..i])
    ensures Classify(texts[i]).Some? && Classify(texts[i]).value.Name? ==>
      Pages(texts[..i + 1]) == Pages(texts[..i]) &&
      Names(texts[..i + 1]) == Names(texts[..i]) + [Classify(texts[i]).value.name]
  {
    assert texts[..i + 1][..i] == texts[..i];
    assert texts[..i + 1][i] == texts[i];
  }

  /** The first loop of `_get_summary_pages`: each subtitle goes to the page list or to the
      name list; one that is neither stops the build with `.group()` on `None`. */
  method SortSubtitles(texts: seq<string>) returns (r: Result<(seq<string>, seq<nat>)>)
    ensures r.Ok? <==> AllClassified(texts)
    ensures r.Ok? ==> r.value == (Names(texts), Pages(texts))
    ensures r.Err? ==> r.error == AttributeError
  {
    var page: seq<nat> := [];
    var tablesName: seq<string> := [];
    var i := 0;
    while i < |texts|
      invariant 0 <= i <= |texts|
      invariant AllClassified(texts[..i])
      invariant page == Pages(texts[..i]) && tablesName == Names(texts[..i])
    {
      SubtitleStep(texts, i);
      match Classify(texts[i]) {
        case Some(PageNumber(p)) =>
          page := page + [p];
        case Some(Name(n)) =>
          tablesName := tablesName + [n];
        case None =>
          return Err(AttributeError);
      }
      i := i + 1;
    }
    assert texts[..i] == texts;
    return Ok((tablesName, page));
  }

  /** The second loop of `_get_summary_pages`: `d[tables_name[i]] = page[i]` for each page
      index i, which runs past the names when there are fewer names than pages. */
  method PairUp(tablesName: seq<string>, page: seq<nat>) returns (r: Result<OrderedMap<nat>>)
    ensures r.Ok? <==> |page| <= |tablesName|
    ensures r.Err? ==> r.error == IndexError
    ensures r.Ok? ==> r.value == PutAll(Zip(tablesName[..|page|], page))
  {
    var d := Empty();
    var k := 0;
    while k < |page|
      invariant 0 <= k <= |page| && k <= |tablesName|
      invariant d == PutAll(Zip(tablesName[..k], page[..k]))
    {
      if k >= |tablesName| {
        return Err(IndexError);
      }
      ZipSnoc(tablesName, page, k);
      PutAllSnoc(Zip(tablesName[..k], page[..k]), tablesName[k], page[k]);
      d := Put(d, tablesName[k], page[k]);
      k := k + 1;
    }
    assert page[..k] == page;
    return Ok(d);
  }

  /** `_get_summary_pages` after the section is found: the two loops in turn. */
  method BuildSummary(texts: seq<string>) returns (r: Result<OrderedMap<nat>>)
    ensures r == SummaryOf(texts)
  {
    var lists := SortSubtitles(texts);
    if lists.Err? {
      return Err(lists.error);
    }
    r := PairUp(lists.value.0, lists.value.1);
  }

  // ---------------------------------------------------------------------------
  // Properties of the dictionary

  /** The build fails with `.group()` on `None` exactly when some subtitle is neither a number nor a
      name, and with an index error exactly when fewer names than numbers were collected. */
  lemma SummaryErrors(texts: seq<string>)
    ensures SummaryOf(texts) == Err(AttributeError) <==>
      exists i | 0 <= i < |texts| :: Classify(texts[i]).None?
    ensures SummaryOf(texts) == Err(IndexError) <==>
      AllClassified(texts) && |Names(texts)| < |Pages(texts)|
  {
  }

  lemma ZipFirsts(names: seq<string>, pages: seq<nat>)
    requires |names| == |pages|
    ensures Firsts(Zip(names, pages)) == names
  {
  }

  /** The keys are the paired names (the first |pages| names, surplus names dropped) in
      order of first appearance; there are at most as many as page numbers, and exactly as
      many when the paired names are distinct. */
  lemma SummaryKeys(texts: seq<string>)
    requires SummaryOf(texts).Ok?
    ensures
      var names, pages := Names(texts), Pages(texts);
      && SummaryOf(texts).value.keys == Dedup(names[..|pages|])
      && |SummaryOf(texts).value.keys| <= |pages|
      && (|SummaryOf(texts).value.keys| == |pages| <==> Distinct(names[..|pages|]))
  {
    var names, pages := Names(texts), Pages(texts);
    var pairs := Zip(names[..|pages|], pages);
    PutAllKeys(pairs);
    ZipFirsts(names[..|pages|], pages);
    DedupProperties(names[..|pages|]);
  }

  /** The k-th name is paired with the k-th number; when a name repeats, the number paired
      with its last occurrence wins. */
  lemma SummaryPairing(texts: seq<string>, k: nat)
    requires SummaryOf(texts).Ok?
    requires k < |Pages(texts)|
    requires forall j | k < j < |Pages(texts)| :: Names(texts)[j] != Names(texts)[k]
    ensures Names(texts)[k] in SummaryOf(texts).value.values
    ensures SummaryOf(texts).value.values[Names(texts)[k]] == Pages(texts)[k]
  {
    var names, pages := Names(texts), Pages(texts);
    PutAllLast(Zip(names[..|pages|], pages), k);
  }

  /** One subtitle that is neither a number nor a name spoils the whole build. */
  lemma UnclassifiedSubtitleFails(texts: seq<string>, i: nat)
    requires i < |texts| && Classify(texts[i]).None?
    ensures SummaryOf(texts) == Err(AttributeError)
  {
  }

  // ---------------------------------------------------------------------------
  // A well-formed table of contents: name, page, name, page, ...

  /** A name the summary reads back unchanged. */
  ghost predicate WellFormedName(name: string) {
    |name| >= 2 && IsLetter(name[0]) && '\n' !in name
  }

  /** The subtitles of a summary that lists each name followed by its page numeral. */
  function Listing(entries: seq<(string, nat)>): seq<string>
  {
    if entries == [] then []
    else
      var e := entries[|entries| - 1];
      Listing(entries[..|entries| - 1]) + [e.0, Decimal(e.1)]
  }

  function Seconds(entries: seq<(string, nat)>): seq<nat>
  {
    seq(|entries|, i requires 0 <= i < |entries| => entries[i].1)
  }

  lemma SecondsSnoc(entries: seq<(string, nat)>, e: (string, nat))
    ensures Seconds(entries + [e]) == Seconds(entries) + [e.1]
  {
    var a, b := Seconds(entries + [e]), Seconds(entries) + [e.1];
    forall i | 0 <= i < |a| ensures a[i] == b[i] {
    }
  }

  lemma {:induction false} NamesPagesAppend(a: seq<string>, b: seq<string>)
    ensures Names(a + b) == Names(a) + Names(b)
    ensures Pages(a + b) == Pages(a) + Pages(b)
  {
    if b == [] {
      assert a + b == a;
    } else {
      var b' := b[..|b| - 1];
      assert (a + b)[..|a + b| - 1] == a + b';
      NamesPagesAppend(a, b');
    }
  }

  lemma AllClassifiedAppend(a: seq<string>, b: seq<string>)
    requires AllClassified(a) && AllClassified(b)
    ensures AllClassified(a + b)
  {
    forall i | 0 <= i < |a + b| ensures Classify((a + b)[i]).Some? {
      if i < |a| { assert (a + b)[i] == a[i]; } else { assert (a + b)[i] == b[i - |a|]; }
    }
  }

  /** The two subtitles of one listed entry: its name, then its page numeral. */
  lemma EntryLists(name: string, n: nat)
    requires WellFormedName(name)
    ensures AllClassified([name, Decimal(n)])
    ensures Names([name, Decimal(n)]) == [name] && Pages([name, Decimal(n)]) == [n]
  {
    NameText(name, []);
    PageNumberText(n, []);
    assert name + [] == name && Decimal(n) + [] == Decimal(n);
    var one: seq<string> := [name];
    var two := [name, Decimal(n)];
    assert two[..1] == one && one[..0] == [];
    assert Names(one) == [name] && Pages(one) == [];
  }

  /** The subtitles of a listing all classify, and give back its names and its pages. */
  lemma {:induction false} ListingLists(entries: seq<(string, nat)>)
    requires forall i | 0 <= i < |entries| :: WellFormedName(entries[i].0)
    ensures AllClassified(Listing(entries))
    ensures Names(Listing(entries)) == Firsts(entries)
    ensures Pages(Listing(entries)) == Seconds(entries)
  {
    if entries != [] {
      var p, e := entries[..|entries| - 1], entries[|entries| - 1];
      ListingLists(p);
      EntryLists(e.0, e.1);
      NamesPagesAppend(Listing(p), [e.0, Decimal(e.1)]);
      AllClassifiedAppend(Listing(p), [e.0, Decimal(e.1)]);
      assert entries == p + [e];
      FirstsSnoc(p, e);
      SecondsSnoc(p, e);
    }
  }

  /** A listing's summary is the dictionary built from its entries in order. */
  lemma ListingIsPutAll(entries: seq<(string, nat)>)
    requires forall i | 0 <= i < |entries| :: WellFormedName(entries[i].0)
    ensures SummaryOf(Listing(entries)) == Ok(PutAll(entries))
  {
    var texts := Listing(entries);
    ListingLists(entries);
    var names, pages := Names(texts), Pages(texts);
    assert |names| == |entries| == |pages|;
    assert names[..|pages|] == names;
    ZipUnzip(entries);
    assert Zip(names[..|pages|], pages) == entries;
  }

  lemma ZipUnzip(entries: seq<(string, nat)>)
    ensures Zip(Firsts(entries), Seconds(entries)) == entries
  {
    var z := Zip(Firsts(entries), Seconds(entries));
    forall i | 0 <= i < |entries| ensures z[i] == entries[i] {
      assert z[i] == (entries[i].0, entries[i].1);
    }
  }

  /** A summary that lists distinct well-formed names, each followed by its page, yields the
      dictionary of exactly those entries, in that order. */
  lemma ListingSummary(entries: seq<(string, nat)>)
    requires forall i | 0 <= i < |entries| :: WellFormedName(entries[i].0)
    requires Distinct(Firsts(entries))
    ensures SummaryOf(Listing(entries)).Ok?
    ensures SummaryOf(Listing(entries)).value.keys == Firsts(entries)
    ensures forall i | 0 <= i < |entries| ::
      entries[i].0 in SummaryOf(Listing(entries)).value.values &&
      SummaryOf(Listing(entries)).value.values[entries[i].0] == entries[i].1
  {
    ListingIsPutAll(entries);
    PutAllDistinctKeys(entries);
    PutAllDistinctValues(entries);
  }

  // ---------------------------------------------------------------------------
  // get_summary_tables_pages

  /** `prefix.+` matched at the start of `k`: the prefix, then at least one character that is
      not a newline. */
  predicate StartsWithAndMore(k: string, prefix: string) {
    |k| > |prefix| && k[..|prefix|] == prefix && k[|prefix|] != '\n'
  }

  /** `re.match(r'Relat.+|Nota.+', k) != None`: a report ("Relatório ...") or a note ("Notas ..."). */
  predicate IsReportOrNote(k: string) {
    StartsWithAndMore(k, "Relat") || StartsWithAndMore(k, "Nota")
  }

  /** The keys that name tables, in dictionary order. */
  function KeptKeys(keys: seq<string>): seq<string>
  {
    if keys == [] then []
    else (if IsReportOrNote(keys[0]) then [] else [keys[0]]) + KeptKeys(keys[1..])
  }

  /** The kept keys are exactly the keys that name neither a report nor a note. */
  lemma {:induction false} KeptKeysMembers(keys: seq<string>)
    ensures |KeptKeys(keys)| <= |keys|
    ensures forall k :: k in KeptKeys(keys) <==> k in keys && !IsReportOrNote(k)
  {
    if keys != [] {
      KeptKeysMembers(keys[1..]);
      assert keys == [keys[0]] + keys[1..];
    }
  }

  /** The page after each table's listed page, for the kept keys in dictionary order. */
  function PagesAfter(keys: seq<string>, values: map<string, nat>): seq<nat>
    requires forall k | k in keys :: k in values
  {
    if keys == [] then []
    else
      var rest := PagesAfter(keys[1..], values);
      if IsReportOrNote(keys[0]) then rest else [values[keys[0]] + 1] + rest
  }

  /** Each kept key, in order, gives the page after its listed page. */
  lemma {:induction false} PagesAfterKept(keys: seq<string>, values: map<string, nat>)
    requires forall k | k in keys :: k in values
    ensures |PagesAfter(keys, values)| == |KeptKeys(keys)|
    ensures forall j | 0 <= j < |KeptKeys(keys)| ::
      KeptKeys(keys)[j] in values && PagesAfter(keys, values)[j] == values[KeptKeys(keys)[j]] + 1
  {
    if keys != [] {
      var tail := keys[1..];
      assert forall k | k in tail :: k in keys;
      PagesAfterKept(tail, values);
      var r, rest := PagesAfter(keys, values), PagesAfter(tail, values);
      if IsReportOrNote(keys[0]) {
        assert KeptKeys(keys) == KeptKeys(tail);
      } else {
        var kept := KeptKeys(keys);
        assert kept == [keys[0]] + KeptKeys(tail);
        assert r == [values[keys[0]] + 1] + rest;
        forall j | 0 <= j < |kept| ensures kept[j] in values && r[j] == values[kept[j]] + 1 {
          if j > 0 {
            assert r[j] == rest[j - 1] && kept[j] == KeptKeys(tail)[j - 1];
          }
        }
      }
    }
  }

  /** `get_summary_tables_pages` given the dictionary: `d[k] + 1` for each key `k`
      that names neither a report nor a note, in dictionary order. */
  function TablePages(d: OrderedMap<nat>): (r: seq<nat>)
    requires Valid(d)
    ensures |r| == |KeptKeys(d.keys)|
    ensures forall j | 0 <= j < |r| ::
      KeptKeys(d.keys)[j] in d.values && r[j] == d.values[KeptKeys(d.keys)[j]] + 1
  {
    PagesAfterKept(d.keys, d.values);
    PagesAfter(d.keys, d.values)
  }

  /** `get_summary_tables_pages` from the summary subtitles; the build's errors pass through. */
  function SummaryTablePages(texts: seq<string>): (r: Result<seq<nat>>)
    ensures r.Ok? <==> SummaryOf(texts).Ok?
    ensures r.Err? ==> r.error == SummaryOf(texts).error
    ensures r.Ok? ==> |r.value| == |KeptKeys(SummaryOf(texts).value.keys)|
    ensures r.Ok? ==> forall j | 0 <= j < |r.value| ::
      var d := SummaryOf(texts).value;
      KeptKeys(d.keys)[j] in d.values && r.value[j] == d.values[KeptKeys(d.keys)[j]] + 1
  {
    match SummaryOf(texts)
    case Err(e) => Err(e)
    case Ok(d) => Ok(TablePages(d))
  }

  /** Reports and notes are dropped; a key that is exactly "Relat" or "Nota", or a note
      written in English, is kept. */
  lemma FilterExamples()
    ensures IsReportOrNote("Relatório da Administração")
    ensures IsReportOrNote("Notas Explicativas")
    ensures !IsReportOrNote("Relat") && !IsReportOrNote("Nota")
    ensures !IsReportOrNote("Note 1")
    ensures !IsReportOrNote("Balanço Patrimonial Ativo")
    ensures !IsReportOrNote("Demonstração do Resultado")
  {
    assert "Relat"[..4][0] != "Nota"[0];
    assert "Note 1"[..4][3] != "Nota"[3] && "Note 1"[..5][0] != "Relat"[0];
    assert "Balanço Patrimonial Ativo"[..4][0] != "Nota"[0];
    assert "Balanço Patrimonial Ativo"[..5][0] != "Relat"[0];
    assert "Demonstração do Resultado"[..4][0] != "Nota"[0];
    assert "Demonstração do Resultado"[..5][0] != "Relat"[0];
  }

  /** Three entries whose names are well formed and pairwise distinct. */
  ghost predicate ThreeDistinctNames(e: seq<(string, nat)>) {
    && |e| == 3
    && WellFormedName(e[0].0) && WellFormedName(e[1].0) && WellFormedName(e[2].0)
    && e[0].0 != e[1].0 && e[0].0 != e[2].0 && e[1].0 != e[2].0
  }

  /** A listing of three distinct well-formed names yields those three entries in order. */
  lemma ListingOfThree(e: seq<(string, nat)>)
    requires ThreeDistinctNames(e)
    ensures SummaryOf(Listing(e)).Ok?
    ensures SummaryOf(Listing(e)).value.keys == [e[0].0, e[1].0, e[2].0]
    ensures forall i | 0 <= i < 3 ::
      e[i].0 in SummaryOf(Listing(e)).value.values && SummaryOf(Listing(e)).value.values[e[i].0] == e[i].1
  {
    var f := Firsts(e);
    assert f[0] == e[0].0 && f[1] == e[1].0 && f[2] == e[2].0;
    assert f == [e[0].0, e[1].0, e[2].0];
    assert Distinct(f) by {
      forall i, j | 0 <= i < j < 3 ensures f[i] != f[j] {
      }
    }
    forall i | 0 <= i < 3 ensures WellFormedName(e[i].0) {
    }
    ListingSummary(e);
  }

  /** Two table names followed by a note: the filter keeps the two names and gives the pages
      after theirs. */
  lemma TablePagesOfTwoTablesAndNote(d: OrderedMap<nat>, x: string, y: string, z: string)
    requires Valid(d) && d.keys == [x, y, z]
    requires !IsReportOrNote(x) && !IsReportOrNote(y) && IsReportOrNote(z)
    ensures TablePages(d) == [d.values[x] + 1, d.values[y] + 1]
  {
    var v := d.values;
    assert [z][1..] == [];
    assert PagesAfter([z], v) == [];
    assert [y, z][1..] == [z];
    assert PagesAfter([y, z], v) == [v[y] + 1];
    assert [x, y, z][1..] == [y, z];
    assert PagesAfter([x, y, z], v) == [v[x] + 1, v[y] + 1];
  }

  /** Three table names, none a report or a note: the filter keeps all three. */
  lemma TablePagesOfThreeTables(d: OrderedMap<nat>, x: string, y: string, z: string)
    requires Valid(d) && d.keys == [x, y, z]
    requires !IsReportOrNote(x) && !IsReportOrNote(y) && !IsReportOrNote(z)
    ensures TablePages(d) == [d.values[x] + 1, d.values[y] + 1, d.values[z] + 1]
  {
    var v := d.values;
    assert [z][1..] == [];
    assert PagesAfter([z], v) == [v[z] + 1];
    assert [y, z][1..] == [z];
    assert PagesAfter([y, z], v) == [v[y] + 1, v[z] + 1];
    assert [x, y, z][1..] == [y, z];
    assert PagesAfter([x, y, z], v) == [v[x] + 1, v[y] + 1, v[z] + 1];
  }

  // ---------------------------------------------------------------------------
  // Two worked tables of contents

  const ScenarioEntries: seq<(string, nat)> :=
    [("Balanço Patrimonial Ativo", 10), ("Demonstração do Resultado", 15), ("Notas Explicativas", 20)]

  const EnglishEntries: seq<(string, nat)> :=
    [("Balance Sheet", 10), ("Income Statement", 15), ("Note 1", 20)]

  /** The Portuguese example lists three well-formed distinct names. */
  lemma ScenarioNames()
    ensures ThreeDistinctNames(ScenarioEntries)
  {
    var e := ScenarioEntries;
    assert e[0].0[0] != e[1].0[0] && e[0].0[0] != e[2].0[0] && e[1].0[0] != e[2].0[0];
    assert WellFormedName(e[0].0);
    assert WellFormedName(e[1].0);
    assert WellFormedName(e[2].0);
  }

  /** So does the English one. */
  lemma EnglishNames()
    ensures ThreeDistinctNames(EnglishEntries)
  {
    var e := EnglishEntries;
    assert e[0].0[0] != e[1].0[0] && e[0].0[0] != e[2].0[0] && e[1].0[0] != e[2].0[0];
    assert WellFormedName(e[0].0);
    assert WellFormedName(e[1].0);
    assert WellFormedName(e[2].0);
  }

  /** The Portuguese notes are filtered out, while every English name, "Note 1" included,
      is kept. */
  lemma ExampleFilters()
    ensures !IsReportOrNote(ScenarioEntries[0].0) && !IsReportOrNote(ScenarioEntries[1].0)
    ensures IsReportOrNote(ScenarioEntries[2].0)
    ensures !IsReportOrNote(EnglishEntries[0].0) && !IsReportOrNote(EnglishEntries[1].0)
    ensures !IsReportOrNote(EnglishEntries[2].0)
  {
    FilterExamples();
    assert "Balance Sheet"[..4][0] != "Nota"[0] && "Balance Sheet"[..5][0] != "Relat"[0];
    assert "Income Statement"[..4][0] != "Nota"[0] && "Income Statement"[..5][0] != "Relat"[0];
  }

  lemma ScenarioListing()
    ensures Listing(ScenarioEntries) == ["Balanço Patrimonial Ativo", "10", "Demonstração do Resultado", "15",
                                         "Notas Explicativas", "20"]
  {
    var e := ScenarioEntries;
    assert Decimal(10) == "10" && Decimal(15) == "15" && Decimal(20) == "20";
    var none: seq<(string, nat)> := [];
    assert e[..1][..0] == none;
    assert e[..2][..1] == e[..1];
    assert Listing(e[..1]) == ["Balanço Patrimonial Ativo", "10"];
    assert Listing(e[..2]) == ["Balanço Patrimonial Ativo", "10", "Demonstração do Resultado", "15"];
    assert e[..3][..2] == e[..2];
    assert e[..3] == e;
  }

  /** The table pages of the Portuguese listing: the page after each of the two tables. */
  lemma ScenarioListingTablePages()
    ensures SummaryTablePages(Listing(ScenarioEntries)) == Ok([11, 16])
  {
    var e := ScenarioEntries;
    ScenarioNames();
    ExampleFilters();
    ListingOfThree(e);
    var d := SummaryOf(Listing(e)).value;
    TablePagesOfTwoTablesAndNote(d, e[0].0, e[1].0, e[2].0);
    assert e[0].1 == 10 && e[1].1 == 15;
  }

  /** A summary of two tables and the explanatory notes yields the pages after the two tables. */
  lemma ScenarioSubtitlesTablePages()
    ensures SummaryTablePages(["Balanço Patrimonial Ativo", "10", "Demonstração do Resultado", "15",
                               "Notas Explicativas", "20"]) == Ok([11, 16])
  {
    ScenarioListing();
    ScenarioListingTablePages();
  }

  /** An English summary of two tables and "Note 1": the note does not match `Nota.+`, so
      its page is kept along with the tables'. */
  lemma EnglishNoteIsKept()
    ensures SummaryTablePages(Listing(EnglishEntries)) == Ok([11, 16, 21])
  {
    var e := EnglishEntries;
    EnglishNames();
    ExampleFilters();
    ListingOfThree(e);
    var d := SummaryOf(Listing(e)).value;
    TablePagesOfThreeTables(d, e[0].0, e[1].0, e[2].0);
    assert e[0].1 == 10 && e[1].1 == 15 && e[2].1 == 20;
  }
}
