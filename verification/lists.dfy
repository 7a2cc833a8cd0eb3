/**
 * The domain-list catalogue: a set of disposable domains that only grows
 * and a set of public email providers seeded with well-known webmail
 * services. Remote plain-text lists and a local CSV file are inputs here:
 * what the download or the file read produced is passed in.
 */
module DomainLists {
  import opened Text

  /** A line, once stripped and lower-cased, is kept when it is non-empty, not a `#` comment and holds a dot. */
  predicate IsListedDomain(d: string)
  {
    d != [] && !StartsWith(d, "#") && '.' in d
  }

  /** `line.strip().lower()`. */
  function NormalizeLine(line: string): string
  {
    Lower(Strip(line))
  }

  /** A normalised line is lower-case and has no surrounding whitespace. */
  lemma NormalizeLineIsNormal(line: string)
    ensures IsLowerCase(NormalizeLine(line)) && IsStripped(NormalizeLine(line))
  {
    LowerPointwise(Strip(line));
    LowerStripCommute(line);
  }

  /** The domains kept from `lines`, in their order. */
  function ListedDomains(lines: seq<string>): (ds: seq<string>)
    ensures |ds| <= |lines|
    ensures forall k :: 0 <= k < |ds| ==> IsListedDomain(ds[k])
  {
    if lines == [] then []
    else
      var kept := ListedDomains(lines[..|lines| - 1]);
      var d := NormalizeLine(lines[|lines| - 1]);
      if IsListedDomain(d) then kept + [d] else kept
  }

  /** Filtering works line by line: the lists of two blocks of lines concatenate. */
  lemma {:induction false} ListedDomainsAppend(a: seq<string>, b: seq<string>)
    ensures ListedDomains(a + b) == ListedDomains(a) + ListedDomains(b)
  {
    if b != [] {
      var n := |b| - 1;
      assert (a + b)[..|a + b| - 1] == a + b[..n];
      assert (a + b)[|a + b| - 1] == b[n];
      ListedDomainsAppend(a, b[..n]);
    } else {
      assert a + b == a;
    }
  }

  /** Some line of `lines` normalises to `d`. */
  predicate SomeLineGives(lines: seq<string>, d: string)
  {
    exists k :: 0 <= k < |lines| && NormalizeLine(lines[k]) == d
  }

  /** One more line gives `d` exactly when the earlier lines or the new one do. */
  lemma SomeLineGivesSnoc(lines: seq<string>, line: string, d: string)
    ensures SomeLineGives(lines + [line], d) <==> SomeLineGives(lines, d) || NormalizeLine(line) == d
  {
    var all := lines + [line];
    if SomeLineGives(lines, d) {
      var k :| 0 <= k < |lines| && NormalizeLine(lines[k]) == d;
      assert all[k] == lines[k];
    }
    assert all[|lines|] == line;
  }

  /** A domain is kept exactly when some line normalises to it and it passes the filter. */
  lemma {:induction false} ListedDomainsMembers(lines: seq<string>, d: string)
    ensures d in ListedDomains(lines) <==> IsListedDomain(d) && SomeLineGives(lines, d)
  {
    if lines != [] {
      var n := |lines| - 1;
      var prefix := lines[..n];
      ListedDomainsMembers(prefix, d);
      assert prefix + [lines[n]] == lines;
      SomeLineGivesSnoc(prefix, lines[n], d);
    }
  }

  /** The lines of a downloaded list: `content.strip().split('\n')`. */
  function ContentLines(content: string): seq<string>
  {
    Split(Strip(content), '\n')
  }

  /** What a download produced: an HTTP status with its body, or an exception. */
  datatype FetchResponse = Response(status: int, content: string) | FetchError

  /** The list `_fetch_domain_list` returns for a download: the listed domains of a 200 response, otherwise nothing. */
  function FetchedList(response: FetchResponse): seq<string>
  {
    if response.Response? && response.status == 200 then ListedDomains(ContentLines(response.content)) else []
  }

  /** `_fetch_domain_list`: filters the lines of a 200 response; any other status or an exception gives `[]`. */
  method FetchDomainList(response: FetchResponse) returns (domains: seq<string>)
    ensures domains == FetchedList(response)
    ensures forall k :: 0 <= k < |domains| ==> IsListedDomain(domains[k])
  {
    domains := [];
    if response.FetchError? || response.status != 200 {
      return;
    }
    var lines := ContentLines(response.content);
    var i := 0;
    while i < |lines|
      invariant 0 <= i <= |lines|
      invariant domains == ListedDomains(lines[..i])
    {
      var domain := NormalizeLine(lines[i]);
      if domain != [] && !StartsWith(domain, "#") && '.' in domain {
        domains := domains + [domain];
      }
      assert lines[..i + 1][..i] == lines[..i];
      i := i + 1;
    }
    assert lines[..i] == lines;
  }

  /** A line that is already lower-case and stripped is its own normal form. */
  lemma NormalLineFixed(line: string)
    requires IsLowerCase(line) && IsStripped(line)
    ensures NormalizeLine(line) == line
  {
    StripOfStripped(line);
    LowerOfLowerCase(line);
  }

  /** Filtering one more line appends its normal form exactly when that passes. */
  lemma ListedDomainsSnoc(lines: seq<string>, line: string)
    ensures ListedDomains(lines + [line]) ==
      if IsListedDomain(NormalizeLine(line)) then ListedDomains(lines) + [NormalizeLine(line)] else ListedDomains(lines)
  {
    assert (lines + [line])[..|lines|] == lines;
  }

  /** For a line that is already normal, filtering it keeps it exactly when it passes. */
  lemma ListedDomainsSnocNormal(lines: seq<string>, line: string)
    requires IsLowerCase(line) && IsStripped(line)
    ensures ListedDomains(lines + [line]) ==
      if IsListedDomain(line) then ListedDomains(lines) + [line] else ListedDomains(lines)
  {
    NormalLineFixed(line);
    ListedDomainsSnoc(lines, line);
  }

  /** Four lines without newlines, joined by newlines, split back into those lines. */
  lemma SplitFourLines(a: string, b: string, c: string, e: string)
    requires '\n' !in a && '\n' !in b && '\n' !in c && '\n' !in e
    ensures Split(a + ['\n'] + (b + ['\n'] + (c + ['\n'] + e)), '\n') == [a, b, c, e]
  {
    SplitWithoutSeparator(e, '\n');
    SplitAtFirst(c, e, '\n');
    SplitAtFirst(b, c + ['\n'] + e, '\n');
    SplitAtFirst(a, b + ['\n'] + (c + ['\n'] + e), '\n');
  }

  /** A download whose text has no surrounding whitespace keeps each of its four lines. */
  lemma ContentFourLines(a: string, b: string, c: string, e: string)
    requires '\n' !in a && '\n' !in b && '\n' !in c && '\n' !in e
    requires a != [] && !IsSpace(a[0]) && e != [] && !IsSpace(e[|e| - 1])
    ensures ContentLines(a + ['\n'] + b + ['\n'] + c + ['\n'] + e) == [a, b, c, e]
  {
    var text := a + ['\n'] + (b + ['\n'] + (c + ['\n'] + e));
    assert a + ['\n'] + b + ['\n'] + c + ['\n'] + e == text;
    assert text[0] == a[0] && text[|text| - 1] == e[|e| - 1];
    StripOfStripped(text);
    SplitFourLines(a, b, c, e);
  }

  /** A single normal line is kept exactly when it passes the filter. */
  lemma ListedSingle(line: string)
    requires IsLowerCase(line) && IsStripped(line)
    ensures ListedDomains([line]) == if IsListedDomain(line) then [line] else []
  {
    NormalLineFixed(line);
    assert [line][..0] == [];
  }

  /** Two normal lines that pass the filter are both kept, in order. */
  lemma ListedTwoDomains(a: string, b: string)
    requires IsLowerCase(a) && IsStripped(a) && IsListedDomain(a)
    requires IsLowerCase(b) && IsStripped(b) && IsListedDomain(b)
    ensures ListedDomains([a, b]) == [a, b]
  {
    ListedSingle(a);
    ListedSingle(b);
    ListedDomainsAppend([a], [b]);
    assert [a] + [b] == [a, b];
  }

  /** A line that normalises to a `#` comment and a line that normalises to a word without a dot are both dropped. */
  lemma ListedNoDomains(c: string, e: string)
    requires StartsWith(NormalizeLine(c), "#")
    requires '.' !in NormalizeLine(e)
    ensures ListedDomains([c, e]) == []
  {
    ListedDomainsSnoc([], c);
    assert [] + [c] == [c];
    ListedDomainsSnoc([c], e);
    assert [c] + [e] == [c, e];
  }

  /**
   * Every line that begins with `#`, such as the test's `# Comment`, normalises
   * to a comment, and a line without a dot, such as `invalid_line`, to a word
   * without a dot.
   */
  lemma CommentAndDotlessLines(rest: string, e: string)
    requires '.' !in e
    ensures StartsWith(NormalizeLine(['#'] + rest), "#")
    ensures '.' !in NormalizeLine(e)
  {
    var line := ['#'] + rest;
    assert TrimStart(line) == line;
    TrimEndPrefix(line);
    var r := Strip(line);
    assert r == TrimEnd(line) && r != [] && r[0] == '#';
    LowerPointwise(r);
    StripKeepsOut(e, '.');
    LowerKeepsOut(Strip(e), '.');
  }

  /** Of four lines (two normal domains, a comment, a word without a dot), the two domains are kept. */
  lemma ListedFourLines(a: string, b: string, c: string, e: string)
    requires IsLowerCase(a) && IsStripped(a) && IsListedDomain(a)
    requires IsLowerCase(b) && IsStripped(b) && IsListedDomain(b)
    requires StartsWith(NormalizeLine(c), "#")
    requires '.' !in NormalizeLine(e)
    ensures ListedDomains([a, b, c, e]) == [a, b]
  {
    ListedTwoDomains(a, b);
    ListedNoDomains(c, e);
    ListedDomainsAppend([a, b], [c, e]);
    assert [a, b] + [c, e] == [a, b, c, e];
  }

  /**
   * The test download `"example.com\ntest.com\n# Comment\ninvalid_line"`, in
   * general form: a 200 response whose lines are two domains, a comment (in
   * any case, with any inner blanks) and a word without a dot delivers the
   * two domains. Only the ends of the whole body must be free of whitespace.
   */
  lemma FetchFourLines(a: string, b: string, c: string, e: string)
    requires '\n' !in a && '\n' !in b && '\n' !in c && '\n' !in e
    requires IsLowerCase(a) && IsStripped(a) && IsListedDomain(a)
    requires IsLowerCase(b) && IsStripped(b) && IsListedDomain(b)
    requires StartsWith(NormalizeLine(c), "#")
    requires e != [] && !IsSpace(e[|e| - 1]) && '.' !in NormalizeLine(e)
    ensures FetchedList(Response(200, a + ['\n'] + b + ['\n'] + c + ['\n'] + e)) == [a, b]
  {
    ContentFourLines(a, b, c, e);
    ListedFourLines(a, b, c, e);
  }

  /** A 404 or a failed download delivers nothing. */
  lemma FetchFailures(content: string)
    ensures FetchedList(Response(404, content)) == [] && FetchedList(FetchError) == []
  {
  }

  /** The local provider file: its CSV rows, or the file was missing or unreadable. */
  datatype CsvFile = Rows(rows: seq<seq<string>>) | FileNotFound | ReadError

  /** The first-column domains of the CSV rows, in order. */
  function CsvDomains(rows: seq<seq<string>>): (ds: seq<string>)
    ensures |ds| <= |rows|
    ensures forall k :: 0 <= k < |ds| ==> ds[k] != [] && '.' in ds[k]
  {
    if rows == [] then []
    else
      var kept := CsvDomains(rows[..|rows| - 1]);
      var row := rows[|rows| - 1];
      if row == [] then kept
      else
        var d := NormalizeLine(row[0]);
        if d != [] && '.' in d then kept + [d] else kept
  }

  /** Some non-empty row has `d` as its normalised first column. */
  predicate SomeRowGives(rows: seq<seq<string>>, d: string)
  {
    exists k :: 0 <= k < |rows| && rows[k] != [] && NormalizeLine(rows[k][0]) == d
  }

  /** One more row gives `d` exactly when the earlier rows or the new one do. */
  lemma SomeRowGivesSnoc(rows: seq<seq<string>>, row: seq<string>, d: string)
    ensures SomeRowGives(rows + [row], d) <==> SomeRowGives(rows, d) || (row != [] && NormalizeLine(row[0]) == d)
  {
    var all := rows + [row];
    if SomeRowGives(rows, d) {
      var k :| 0 <= k < |rows| && rows[k] != [] && NormalizeLine(rows[k][0]) == d;
      assert all[k] == rows[k];
    }
    assert all[|rows|] == row;
  }

  /** A CSV domain is exactly the normalised first column of some row, when non-empty and dotted. */
  lemma {:induction false} CsvDomainsMembers(rows: seq<seq<string>>, d: string)
    ensures d in CsvDomains(rows) <==> d != [] && '.' in d && SomeRowGives(rows, d)
  {
    if rows != [] {
      var n := |rows| - 1;
      var prefix := rows[..n];
      CsvDomainsMembers(prefix, d);
      assert prefix + [rows[n]] == rows;
      SomeRowGivesSnoc(prefix, rows[n], d);
    }
  }

  /** `_load_hubspot_list`: the CSV domains, or nothing when the file is missing or unreadable. */
  method LoadHubspotList(file: CsvFile) returns (domains: seq<string>)
    ensures file.Rows? ==> domains == CsvDomains(file.rows)
    ensures !file.Rows? ==> domains == []
  {
    domains := [];
    if !file.Rows? {
      return;
    }
    var rows := file.rows;
    var i := 0;
    while i < |rows|
      invariant 0 <= i <= |rows|
      invariant domains == CsvDomains(rows[..i])
    {
      var row := rows[i];
      if row != [] {
        var domain := NormalizeLine(row[0]);
        if domain != [] && '.' in domain {
          domains := domains + [domain];
        }
      }
      assert rows[..i + 1][..i] == rows[..i];
      i := i + 1;
    }
    assert rows[..i] == rows;
  }

  /**
   * What `asyncio.gather(..., return_exceptions=True)` delivered for one
   * source: the list its `_fetch_domain_list` task returned (`FetchedList`
   * of its download), or an exception.
   */
  datatype SourceResult = Delivered(domains: seq<string>) | Raised

  /** The list a source contributes: what its download delivered, nothing when it raised. */
  function SourceList(r: SourceResult): (ds: seq<string>)
    ensures r.Raised? ==> ds == []
  {
    if r.Delivered? then r.domains else []
  }

  /** The lists of the sources, in source order. */
  function SourceLists(rs: seq<SourceResult>): (ls: seq<seq<string>>)
    ensures |ls| == |rs|
  {
    if rs == [] then [] else SourceLists(rs[..|rs| - 1]) + [SourceList(rs[|rs| - 1])]
  }

  /** The `i`-th list is the `i`-th source's. */
  lemma {:induction false} SourceListsAt(rs: seq<SourceResult>, i: int)
    requires 0 <= i < |rs|
    ensures SourceLists(rs)[i] == SourceList(rs[i])
  {
    var n := |rs| - 1;
    if i < n {
      SourceListsAt(rs[..n], i);
    }
  }

  /** The distinct entries of a list: what `set.update(list)` adds. */
  function Members(ds: seq<string>): (m: set<string>)
    ensures forall d :: d in m <==> d in ds
  {
    set d | d in ds
  }

  /** A list without repeats has as many distinct entries as elements. */
  lemma {:induction false} MembersOfDistinct(ds: seq<string>)
    requires forall i, j :: 0 <= i < j < |ds| ==> ds[i] != ds[j]
    ensures |Members(ds)| == |ds|
  {
    if ds != [] {
      var n := |ds| - 1;
      MembersOfDistinct(ds[..n]);
      assert Members(ds) == Members(ds[..n]) + {ds[n]};
      assert ds[n] !in Members(ds[..n]);
    }
  }

  /** Every domain on some list: what `set.update` accumulates list by list. */
  function Union(ls: seq<seq<string>>): set<string>
  {
    if ls == [] then {}
    else
      var last := ls[|ls| - 1];
      Union(ls[..|ls| - 1]) + Members(last)
  }

  /** A domain is in the union exactly when it is on one of the lists. */
  lemma {:induction false} UnionMembers(ls: seq<seq<string>>, d: string)
    ensures d in Union(ls) <==> exists i :: 0 <= i < |ls| && d in ls[i]
  {
    if ls != [] {
      var n := |ls| - 1;
      var prefix := ls[..n];
      UnionMembers(prefix, d);
      if d in Union(prefix) {
        var i :| 0 <= i < |prefix| && d in prefix[i];
        assert ls[i] == prefix[i];
      }
      if exists i :: 0 <= i < |ls| && d in ls[i] {
        var i :| 0 <= i < |ls| && d in ls[i];
        if i < n {
          assert prefix[i] == ls[i];
        }
      }
    }
  }

  /** Taking one more source into account adds its list to the union. */
  lemma UnionSourceListsStep(rs: seq<SourceResult>, i: int)
    requires 0 <= i < |rs|
    ensures Union(SourceLists(rs[..i + 1])) == Union(SourceLists(rs[..i])) + Members(SourceList(rs[i]))
  {
    assert rs[..i + 1][..i] == rs[..i];
  }

  /** A domain was delivered exactly when it is on the list of a source that did not raise. */
  lemma DeliveredDomainsMembers(rs: seq<SourceResult>, d: string)
    ensures d in Union(SourceLists(rs)) <==> exists i :: 0 <= i < |rs| && rs[i].Delivered? && d in rs[i].domains
  {
    UnionMembers(SourceLists(rs), d);
    forall i | 0 <= i < |rs|
      ensures SourceLists(rs)[i] == SourceList(rs[i])
    {
      SourceListsAt(rs, i);
    }
  }

  /** The report of the sources: each source's URL mapped to the length of its list (0 when it raised). */
  function Counts(sources: seq<string>, rs: seq<SourceResult>): map<string, int>
    requires |sources| == |rs|
  {
    if rs == [] then map[]
    else
      var n := |rs| - 1;
      Counts(sources[..n], rs[..n])[sources[n] := |SourceList(rs[n])|]
  }

  /** The report grows by one entry per source. */
  lemma CountsStep(sources: seq<string>, rs: seq<SourceResult>, i: int)
    requires |sources| == |rs| && 0 <= i < |rs|
    ensures Counts(sources[..i + 1], rs[..i + 1]) == Counts(sources[..i], rs[..i])[sources[i] := |SourceList(rs[i])|]
  {
    assert sources[..i + 1][..i] == sources[..i];
    assert rs[..i + 1][..i] == rs[..i];
  }

  /** The report has one key per source and nothing else. */
  lemma {:induction false} CountsKeys(sources: seq<string>, rs: seq<SourceResult>)
    requires |sources| == |rs|
    ensures Counts(sources, rs).Keys == Members(sources)
  {
    if rs != [] {
      var n := |rs| - 1;
      CountsKeys(sources[..n], rs[..n]);
      assert sources == sources[..n] + [sources[n]];
    }
  }

  /** With distinct sources, each source's entry is the length of its own list. */
  lemma {:induction false} CountsAt(sources: seq<string>, rs: seq<SourceResult>, j: int)
    requires |sources| == |rs| && DistinctKeys(sources) && 0 <= j < |rs|
    ensures sources[j] in Counts(sources, rs) && Counts(sources, rs)[sources[j]] == |SourceList(rs[j])|
  {
    var n := |rs| - 1;
    if j < n {
      assert DistinctKeys(sources[..n]);
      CountsAt(sources[..n], rs[..n], j);
      assert sources[j] != sources[n];
    }
  }

  /** The local-list key is never one of the sources' keys. */
  lemma CountsNoHubspot(sources: seq<string>, rs: seq<SourceResult>)
    requires |sources| == |rs| && DistinctKeys(sources)
    ensures HubspotKey !in Counts(sources, rs)
  {
    CountsKeys(sources, rs);
  }

  /** The report key of the local provider list. */
  const HubspotKey: string := "hubspot_list"

  /** The four remote disposable-domain lists. */
  const DisposableSourceUrls: seq<string> := [
    "https://raw.githubusercontent.com/disposable-email-domains/disposable-email-domains/master/domains.txt",
    "https://raw.githubusercontent.com/FGRibreau/mailchecker/master/list.txt",
    "https://raw.githubusercontent.com/wesbos/burner-email-providers/master/emails.txt",
    "https://raw.githubusercontent.com/7c/fakefilter/main/txt/data.txt"
  ]

  /** The nineteen public providers the catalogue starts with. */
  const PublicProviderNames: seq<string> := [
    "gmail.com", "yahoo.com", "outlook.com", "hotmail.com", "live.com",
    "mail.ru", "yandex.ru", "yandex.com", "aol.com", "icloud.com",
    "protonmail.com", "zoho.com", "fastmail.com", "gmx.com", "web.de",
    "tutanota.com", "mailbox.org", "hushmail.com", "lycos.com"
  ]

  /** The built-in providers are nineteen distinct domains. */
  lemma NineteenPublicProviders()
    ensures |Members(PublicProviderNames)| == 19
  {
    MembersOfDistinct(PublicProviderNames);
  }

  /** Report keys must not collide: the sources are distinct and none is the local-list key. */
  predicate DistinctKeys(sources: seq<string>)
  {
    (forall i, j :: 0 <= i < j < |sources| ==> sources[i] != sources[j]) && HubspotKey !in sources
  }

  /** The configured sources give distinct report keys. */
  lemma SourceUrlsDistinct()
    ensures DistinctKeys(DisposableSourceUrls)
  {
  }

  class DomainListsManager {
    var disposableSources: seq<string>
    var publicProviders: seq<string>
    var disposableDomains: set<string>
    var publicProviderDomains: set<string>

    /** The catalogue never mixes up two sources' counts. */
    predicate Valid()
      reads this
    {
      DistinctKeys(disposableSources)
    }

    /** A new catalogue: the four sources, no disposable domain, the built-in public providers. */
    constructor()
      ensures Valid()
      ensures disposableSources == DisposableSourceUrls && publicProviders == PublicProviderNames
      ensures disposableDomains == {}
      ensures publicProviderDomains == Members(PublicProviderNames)
    {
      disposableSources := DisposableSourceUrls;
      publicProviders := PublicProviderNames;
      disposableDomains := {};
      publicProviderDomains := Members(PublicProviderNames);
      SourceUrlsDistinct();
    }

    /**
     * The first half of `update_disposable_lists`: each source's outcome, in
     * source order, is recorded under the source's URL with the length of its
     * list (0 when it raised), and every delivered list joins the disposable set.
     */
    method RecordSources(outcomes: seq<SourceResult>) returns (results: map<string, int>)
      requires Valid() && |outcomes| == |disposableSources|
      modifies this`disposableDomains
      ensures disposableDomains == old(disposableDomains) + Union(SourceLists(outcomes))
      ensures results == Counts(disposableSources, outcomes)
    {
      var sources := disposableSources;
      results := map[];
      var i := 0;
      while i < |outcomes|
        invariant 0 <= i <= |outcomes|
        invariant disposableDomains == old(disposableDomains) + Union(SourceLists(outcomes[..i]))
        invariant results == Counts(sources[..i], outcomes[..i])
      {
        var count := 0;
        ghost var prev := disposableDomains;
        match outcomes[i] {
          case Raised =>
          case Delivered(domains) =>
            count := |domains|;
            disposableDomains := disposableDomains + Members(domains);
        }
        UnionSourceListsStep(outcomes, i);
        CountsStep(sources, outcomes, i);
        results := results[sources[i] := count];
        i := i + 1;
      }
      assert outcomes[..i] == outcomes;
      assert sources[..i] == sources;
    }

    /**
     * `update_disposable_lists`: every list delivered by a source is added to
     * the disposable set and each source reports the length of its list (0 if
     * it raised); a non-empty local list is added to the public providers and
     * reported under `"hubspot_list"`. Nothing is ever removed.
     */
    method UpdateDisposableLists(outcomes: seq<SourceResult>, localFile: CsvFile) returns (results: map<string, int>)
      requires Valid() && |outcomes| == |disposableSources|
      modifies this`disposableDomains, this`publicProviderDomains
      ensures Valid() && disposableSources == old(disposableSources)
      ensures disposableDomains == old(disposableDomains) + Union(SourceLists(outcomes))
      ensures old(disposableDomains) <= disposableDomains && old(publicProviderDomains) <= publicProviderDomains
      ensures localFile.Rows? ==> publicProviderDomains == old(publicProviderDomains) + Members(CsvDomains(localFile.rows))
      ensures !localFile.Rows? ==> publicProviderDomains == old(publicProviderDomains)
      ensures localFile.Rows? && CsvDomains(localFile.rows) != [] ==>
        results == Counts(disposableSources, outcomes)[HubspotKey := |CsvDomains(localFile.rows)|]
      ensures !(localFile.Rows? && CsvDomains(localFile.rows) != []) ==> results == Counts(disposableSources, outcomes)
    {
      results := RecordSources(outcomes);
      var hubspotDomains := LoadHubspotList(localFile);
      if hubspotDomains != [] {
        results := results[HubspotKey := |hubspotDomains|];
        publicProviderDomains := publicProviderDomains + Members(hubspotDomains);
      }
    }

    /** `initialize`: a refresh whose report is discarded. */
    method Initialize(outcomes: seq<SourceResult>, localFile: CsvFile)
      requires Valid() && |outcomes| == |disposableSources|
      modifies this`disposableDomains, this`publicProviderDomains
      ensures Valid() && disposableSources == old(disposableSources)
      ensures disposableDomains == old(disposableDomains) + Union(SourceLists(outcomes))
      ensures publicProviderDomains ==
        old(publicProviderDomains) + if localFile.Rows? then Members(CsvDomains(localFile.rows)) else {}
    {
      var _ := UpdateDisposableLists(outcomes, localFile);
    }

    /** `is_disposable_domain`: membership of the lower-cased domain. */
    predicate IsDisposableDomain(domain: string): (b: bool)
      reads this
      ensures IsLowerCase(domain) ==> (b <==> domain in disposableDomains)
      ensures disposableDomains == {} ==> !b
    {
      if IsLowerCase(domain) then
        LowerOfLowerCase(domain);
        Lower(domain) in disposableDomains
      else
        Lower(domain) in disposableDomains
    }

    /** `is_public_provider`: membership of the lower-cased domain. */
    predicate IsPublicProvider(domain: string): (b: bool)
      reads this
      ensures IsLowerCase(domain) ==> (b <==> domain in publicProviderDomains)
      ensures publicProviderDomains == {} ==> !b
    {
      if IsLowerCase(domain) then
        LowerOfLowerCase(domain);
        Lower(domain) in publicProviderDomains
      else
        Lower(domain) in publicProviderDomains
    }

    /** Queries do not depend on the case of the domain. */
    lemma CaseInsensitive(a: string, b: string)
      requires Lower(a) == Lower(b)
      ensures IsDisposableDomain(a) == IsDisposableDomain(b)
      ensures IsPublicProvider(a) == IsPublicProvider(b)
      ensures GetDomainCategory(a) == GetDomainCategory(b)
    {
    }

    /** `get_domain_category`: disposable takes precedence over public provider. */
    function GetDomainCategory(domain: string): (category: string)
      reads this
      ensures category == "disposable" <==> IsDisposableDomain(domain)
      ensures category == "public_provider" <==> !IsDisposableDomain(domain) && IsPublicProvider(domain)
      ensures category == "unknown" <==> !IsDisposableDomain(domain) && !IsPublicProvider(domain)
    {
      var d := Lower(domain);
      if d in disposableDomains then "disposable"
      else if d in publicProviderDomains then "public_provider"
      else "unknown"
    }
  }

  /** A fresh catalogue knows `gmail.com` as a public provider, and no disposable domain. */
  method FreshCatalogueExample() returns (isPublic: bool, isDisposable: bool, category: string)
    ensures isPublic && !isDisposable && category == "public_provider"
  {
    var lists := new DomainListsManager();
    LowerOfLowerCase("gmail.com");
    assert PublicProviderNames[0] == "gmail.com";
    isPublic := lists.IsPublicProvider("gmail.com");
    isDisposable := lists.IsDisposableDomain("gmail.com");
    category := lists.GetDomainCategory("gmail.com");
  }
}
