/**
 * The publications widget: from the works list of the bibliographic service,
 * the five most recent journal articles, newest first, rendered as a list, an
 * empty-state message, or a single failure message. The HTTP request and JSON
 * parsing are abstracted into a `Response` value.
 */
module Publications {
  import opened JsSemantics
  import Lists

  /** `publication-date`: each part is the `value` string of an optional object. */
  datatype PublicationDate = PublicationDate(year: Option<string>, month: Option<string>, day: Option<string>)

  /** One entry of a group's `work-summary` list. */
  datatype WorkSummary = WorkSummary(
    putCode: Option<int>,
    workType: Option<string>,
    publicationDate: Option<PublicationDate>,
    title: Option<string>,
    url: Option<string>)

  /** An element of `group`; `work-summary` may be absent. */
  datatype Group = Group(workSummary: Option<seq<WorkSummary>>)

  /** The parsed response body; `group` may be absent. */
  datatype Works = Works(group: Option<seq<Group>>)

  /** The outcome of the request: a network failure, or a status and a body that parsed or did not. */
  datatype Response = NetworkError | Http(ok: bool, body: Option<Works>)

  /** An entry as the pipeline builds it. */
  datatype Publication = Publication(
    putCode: Option<int>,
    dateNum: JsNumber,
    workType: Option<string>,
    title: string,
    year: string,
    url: Option<string>)

  /** Why loading failed; every kind ends in the same message. */
  datatype LoadError = FetchFailed | HttpStatusNotOk | BodyNotJson | MissingWorkSummary

  datatype Result<T> = Ok(value: T) | Err(error: LoadError)

  const JournalArticle := "journal-article"
  const MaxPublications: nat := 5
  const Untitled := "Untitled"
  const NoPublicationsMessage := "No publications found."
  const LoadFailedMessage := "Unable to load publications at this time."

  /** `v || fallback` for a string that may be absent: the empty string is falsy too. */
  function OrElse(v: Option<string>, fallback: string): string {
    if v.Some? && v.value != "" then v.value else fallback
  }

  function YearText(d: Option<PublicationDate>): string {
    OrElse(if d.Some? then d.value.year else None, "")
  }

  function MonthText(d: Option<PublicationDate>): string {
    OrElse(if d.Some? then d.value.month else None, "01")
  }

  function DayText(d: Option<PublicationDate>): string {
    OrElse(if d.Some? then d.value.day else None, "01")
  }

  /** The string `Number(...)` is applied to: year, then month and day padded to two digits. */
  function DateText(d: Option<PublicationDate>): string {
    YearText(d) + PadStart(MonthText(d), 2, '0') + PadStart(DayText(d), 2, '0')
  }

  /** The summary's `type` is `journal-article`. */
  predicate IsJournalArticle(p: Publication) {
    p.workType == Some(JournalArticle)
  }

  /**
   * The record the pipeline builds from a group's first summary: title
   * defaults to "Untitled", a missing or empty URL to null, a missing year
   * to the empty string.
   */
  function ToPublication(s: WorkSummary): (p: Publication)
    ensures p.title != "" && p.title == (if s.title.Some? && s.title.value != "" then s.title.value else Untitled)
    ensures p.url.Some? <==> s.url.Some? && s.url.value != ""
    ensures p.url.Some? ==> p.url == s.url
    ensures p.dateNum.Num? <==> IsDigits(DateText(s.publicationDate))
    ensures p.year == if s.publicationDate.Some? && s.publicationDate.value.year.Some? then s.publicationDate.value.year.value else ""
    ensures p.workType == s.workType && p.putCode == s.putCode
  {
    var year := YearText(s.publicationDate);
    Publication(
      s.putCode,
      Number(DateText(s.publicationDate)),
      s.workType,
      OrElse(s.title, Untitled),
      year,
      if s.url.Some? && s.url.value != "" then s.url else None)
  }

  /** The date key, for entries whose key is a number (the only ones that are sorted). */
  function DateKey(p: Publication): int {
    if p.dateNum.Num? then p.dateNum.value else 0
  }

  /** The date parts present are strings of decimal digits. */
  predicate DigitDate(d: Option<PublicationDate>) {
    IsDigits(YearText(d)) && IsDigits(MonthText(d)) && IsDigits(DayText(d))
  }

  /**
   * With digit-string parts of at most two digits for month and day, the key
   * reads as year * 10000 + month * 100 + day, a missing month or day
   * counting as 1 and a missing year as 0.
   */
  lemma {:induction false} DateKeyReadsAsCalendarDate(d: Option<PublicationDate>)
    requires DigitDate(d)
    requires |MonthText(d)| <= 2 && |DayText(d)| <= 2
    ensures Number(DateText(d)) ==
      Num(DigitsValue(YearText(d)) * 10000 + DigitsValue(MonthText(d)) * 100 + DigitsValue(DayText(d)))
    ensures (d.None? || d.value.year.None?) ==> DigitsValue(YearText(d)) == 0
    ensures (d.None? || d.value.month.None?) ==> DigitsValue(MonthText(d)) == 1
    ensures (d.None? || d.value.day.None?) ==> DigitsValue(DayText(d)) == 1
  {
    CalendarDigits(YearText(d), MonthText(d), DayText(d));
    ZeroOneValue();
  }

  /** A group whose `work-summary` has a first entry. */
  predicate HasFirstSummary(g: Group) {
    g.workSummary.Some? && |g.workSummary.value| > 0
  }

  /**
   * `item['work-summary'][0]` for every group, in order; a group without a
   * first summary makes the whole step fail.
   */
  function FirstSummaries(groups: seq<Group>): (r: Result<seq<WorkSummary>>)
    ensures r.Ok? <==> forall i :: 0 <= i < |groups| ==> HasFirstSummary(groups[i])
    ensures r.Ok? ==> |r.value| == |groups|
    ensures r.Ok? ==> forall i :: 0 <= i < |groups| ==> r.value[i] == groups[i].workSummary.value[0]
  {
    if groups == [] then Ok([])
    else if !HasFirstSummary(groups[0]) then Err(MissingWorkSummary)
    else
      match FirstSummaries(groups[1..])
      case Err(e) => Err(e)
      case Ok(rest) => Ok([groups[0].workSummary.value[0]] + rest)
  }

  /** Every journal article's date text is a digit string, so every key the sort compares is a number. */
  predicate SortableDates(summaries: seq<WorkSummary>) {
    forall i :: 0 <= i < |summaries| && summaries[i].workType == Some(JournalArticle) ==>
      DigitDate(summaries[i].publicationDate)
  }

  /** `group.map(...)`: one record per first summary, in order. */
  function ToPublications(summaries: seq<WorkSummary>): (r: seq<Publication>)
    ensures |r| == |summaries|
    ensures forall i :: 0 <= i < |summaries| ==> r[i] == ToPublication(summaries[i])
  {
    seq(|summaries|, i requires 0 <= i < |summaries| => ToPublication(summaries[i]))
  }

  /** The journal articles among the records, in their original order. */
  function JournalArticles(summaries: seq<WorkSummary>): seq<Publication> {
    Lists.Filter(ToPublications(summaries), IsJournalArticle)
  }

  lemma {:induction false} DigitDateIsDigits(d: Option<PublicationDate>)
    requires DigitDate(d)
    ensures IsDigits(DateText(d))
  {
    var y, m, dd := YearText(d), MonthText(d), DayText(d);
    LeadingZeros(m, 2);
    LeadingZeros(dd, 2);
    DigitsConcat(y, PadStart(m, 2, '0'));
    DigitsConcat(y + PadStart(m, 2, '0'), PadStart(dd, 2, '0'));
  }

  /** With sortable dates, every journal article has a numeric date key. */
  lemma {:induction false} JournalKeysAreNumbers(summaries: seq<WorkSummary>)
    requires SortableDates(summaries)
    ensures forall p :: p in multiset(JournalArticles(summaries)) ==> IsJournalArticle(p) && p.dateNum.Num?
  {
    var mapped := ToPublications(summaries);
    Lists.FilterMembers(mapped, IsJournalArticle);
    forall p | p in multiset(JournalArticles(summaries)) ensures IsJournalArticle(p) && p.dateNum.Num? {
      assert p in mapped;
      var i :| 0 <= i < |mapped| && mapped[i] == p;
      DigitDateIsDigits(summaries[i].publicationDate);
    }
  }

  lemma {:induction false} MembersOfSubMultiset<T>(r: seq<T>, m: multiset<T>)
    requires multiset(r) <= m
    ensures forall i :: 0 <= i < |r| ==> r[i] in m
  {
    forall i | 0 <= i < |r| ensures r[i] in m {
      assert r[i] in multiset(r);
    }
  }

  /**
   * map, filter to journal articles, sort by date key descending, keep five:
   * at most five journal articles, newest first, drawn from the input.
   */
  function SelectPublications(summaries: seq<WorkSummary>): (r: seq<Publication>)
    requires SortableDates(summaries)
    ensures |r| <= MaxPublications
    ensures |r| == if |JournalArticles(summaries)| < MaxPublications then |JournalArticles(summaries)| else MaxPublications
    ensures forall i :: 0 <= i < |r| ==> IsJournalArticle(r[i]) && r[i].dateNum.Num?
    ensures forall i, j :: 0 <= i < j < |r| ==> r[i].dateNum.value >= r[j].dateNum.value
    ensures multiset(r) <= multiset(JournalArticles(summaries))
  {
    var r := Lists.TopK(JournalArticles(summaries), DateKey, MaxPublications);
    NewestArticles(summaries, r);
    r
  }

  /** The top five journal articles by date key are journal articles with numeric keys, in non-increasing key order. */
  lemma {:induction false} NewestArticles(summaries: seq<WorkSummary>, r: seq<Publication>)
    requires SortableDates(summaries)
    requires r == Lists.TopK(JournalArticles(summaries), DateKey, MaxPublications)
    ensures forall i :: 0 <= i < |r| ==> IsJournalArticle(r[i]) && r[i].dateNum.Num?
    ensures forall i, j :: 0 <= i < j < |r| ==> r[i].dateNum.value >= r[j].dateNum.value
  {
    assert forall i :: 0 <= i < |r| ==> IsJournalArticle(r[i]) && r[i].dateNum.Num? by {
      JournalKeysAreNumbers(summaries);
      MembersOfSubMultiset(r, multiset(JournalArticles(summaries)));
    }
    assert Lists.SortedDesc(r, DateKey);
    forall i, j | 0 <= i < j < |r| ensures r[i].dateNum.value >= r[j].dateNum.value {
      assert DateKey(r[i]) >= DateKey(r[j]);
    }
  }

  /** Every journal article left out is no newer than the last one kept. */
  lemma {:induction false} OlderArticlesLeftOut(summaries: seq<WorkSummary>)
    requires SortableDates(summaries)
    requires |JournalArticles(summaries)| > 0
    ensures var r := SelectPublications(summaries);
      forall p :: p in multiset(JournalArticles(summaries)) - multiset(r) ==>
        p.dateNum.Num? && p.dateNum.value <= r[|r| - 1].dateNum.value
  {
    var journal := JournalArticles(summaries);
    Lists.TopKLeavesOutSmaller(journal, DateKey, MaxPublications);
    JournalKeysAreNumbers(summaries);
  }

  /** The groups of a response that parsed, with a missing `group` read as an empty list. */
  function GroupsOf(works: Works): seq<Group> {
    if works.group.Some? then works.group.value else []
  }

  /** The first summaries of a successful response have sortable dates. */
  predicate WellDated(resp: Response) {
    resp.Http? && resp.ok && resp.body.Some? ==>
      var summaries := FirstSummaries(GroupsOf(resp.body.value));
      summaries.Ok? ==> SortableDates(summaries.value)
  }

  /**
   * `loadPublications` up to the call that renders: it fails exactly when
   * the request fails, the status is not ok, the body is not JSON or a group
   * has no first summary.
   */
  function LoadPublications(resp: Response): (r: Result<seq<Publication>>)
    requires WellDated(resp)
    ensures r.Err? <==>
      || resp.NetworkError?
      || !resp.ok
      || resp.body.None?
      || exists i :: 0 <= i < |GroupsOf(resp.body.value)| && !HasFirstSummary(GroupsOf(resp.body.value)[i])
    ensures r.Ok? ==> |r.value| <= MaxPublications && forall i :: 0 <= i < |r.value| ==> IsJournalArticle(r.value[i])
  {
    match resp
    case NetworkError => Err(FetchFailed)
    case Http(ok, body) =>
      if !ok then Err(HttpStatusNotOk)
      else if body.None? then Err(BodyNotJson)
      else
        match FirstSummaries(GroupsOf(body.value))
        case Err(e) => Err(e)
        case Ok(summaries) => Ok(SelectPublications(summaries))
  }

  /** A response whose body has no `group` key loads as an empty selection and shows the empty-state message. */
  lemma {:induction false} MissingGroupShowsNoPublications(resp: Response)
    requires resp == Http(true, Some(Works(None)))
    ensures LoadPublications(resp) == Ok([])
    ensures Outcome(resp) == Paragraph(NoPublicationsMessage)
  {
    assert FirstSummaries([]) == Ok([]);
    assert SelectPublications([]) == [];
  }

  /** One rendered list entry: title, year, and a link when there is a URL. */
  datatype ListItem = ListItem(title: string, year: string, link: Option<string>)

  /** What the container shows. */
  datatype View =
    | Initial
    | Paragraph(text: string)
    | PubList(id: string, items: seq<ListItem>)

  function ItemOf(p: Publication): ListItem {
    ListItem(p.title, p.year, p.url)
  }

  /**
   * What `displayPublications` leaves in the container: the empty-state
   * message exactly when there is nothing to show, otherwise one item per
   * publication in the same order.
   */
  function Rendered(pubs: seq<Publication>): (v: View)
    ensures v == Paragraph(NoPublicationsMessage) <==> |pubs| == 0
    ensures v.PubList? <==> |pubs| > 0
    ensures v.PubList? ==> |v.items| == |pubs| && forall i :: 0 <= i < |pubs| ==> v.items[i] == ItemOf(pubs[i])
  {
    if |pubs| == 0 then Paragraph(NoPublicationsMessage)
    else PubList("pub-list", seq(|pubs|, i requires 0 <= i < |pubs| => ItemOf(pubs[i])))
  }

  /** What the container shows after `init` has run on response `resp`. */
  function Outcome(resp: Response): (v: View)
    requires WellDated(resp)
    ensures v == Paragraph(LoadFailedMessage) <==> LoadPublications(resp).Err?
  {
    match LoadPublications(resp)
    case Err(_) => Paragraph(LoadFailedMessage)
    case Ok(pubs) => Rendered(pubs)
  }

  class ORCIDPublications {
    var orcId: string
    var container: View

    /** `new ORCIDPublications(...)`: runs `init` on the response to the request for `orcId`'s works. */
    constructor (orcId: string, resp: Response)
      requires WellDated(resp)
      ensures this.orcId == orcId
      ensures container == Outcome(resp)
    {
      this.orcId := orcId;
      container := Initial;
      new;
      Init(resp);
    }

    /** `init`: any failure of loading is caught and replaced by a single message. */
    method Init(resp: Response)
      requires WellDated(resp)
      modifies this`container
      ensures container == Outcome(resp)
    {
      var loaded := LoadPublications(resp);
      match loaded {
        case Err(_) =>
          container := Paragraph(LoadFailedMessage);
        case Ok(pubs) =>
          DisplayPublications(pubs);
      }
    }

    /** `displayPublications`: the empty-state message, or a list built one item at a time. */
    method DisplayPublications(publications: seq<Publication>)
      modifies this`container
      ensures container == Rendered(publications)
    {
      if |publications| == 0 {
        container := Paragraph(NoPublicationsMessage);
        return;
      }
      var items: seq<ListItem> := [];
      var i := 0;
      while i < |publications|
        invariant 0 <= i <= |publications|
        invariant |items| == i
        invariant forall k :: 0 <= k < i ==> items[k] == ItemOf(publications[k])
      {
        items := items + [ItemOf(publications[i])];
        i := i + 1;
      }
      container := PubList("pub-list", items);
    }
  }
}
