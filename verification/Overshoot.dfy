// How far a scan with a limit may overshoot it: for every limit, a service that does so by
// as much as the page size allows.
module Overshoot {
  import opened CodaJson
  import opened CodaService
  import opened RowCap
  import opened ScanClient
  import opened ScanProtocol
  import opened Sequences
  import opened Wrappers

  const ITEM: RowItem := RowItem(Some("r"), None, None, None, None, None)

  function Copies<T>(x: T, n: nat): (s: seq<T>)
    ensures |s| == n
  {
    if n == 0 then [] else Copies(x, n - 1) + [x]
  }

  lemma {:induction false} CopiesParsed(n: nat)
    ensures ParseAll(ParseRow, Copies(ITEM, n)) == Success(Copies(ParseRow(ITEM).value, n))
  {
    if n > 0 {
      CopiesParsed(n - 1);
      assert Copies(ITEM, n)[..n - 1] == Copies(ITEM, n - 1);
    }
  }

  lemma {:induction false} CopiesShown(row: RowInfo, n: nat)
    requires Shown(row)
    ensures Filter(Shown, Copies(row, n)) == Copies(row, n)
  {
    if n > 0 {
      CopiesShown(row, n - 1);
      assert Copies(row, n)[..n - 1] == Copies(row, n - 1);
    }
  }

  // One row a page until a single row is missing, and then a full page.
  function PageRows(limit: nat, page: nat): nat {
    if page < limit then 1 else PageSize(limit)
  }

  function Token(limit: nat, page: nat): string {
    if page < limit then "more" else ""
  }

  function Body(limit: nat, page: nat): RowsBody {
    RowsBody(Some(Copies(ITEM, PageRows(limit, page))), Some(Token(limit, page)), None)
  }

  function OneRowAPage(limit: nat): Service {
    Service(_ => Failure(Transport), _ => Failure(Transport), log => Success(Body(limit, |log|)), _ => true)
  }

  function PageReply(limit: nat, page: nat): Reply {
    ParseRows(Success(Body(limit, page)))
  }

  lemma ReplyRows(limit: nat, page: nat)
    ensures PageReply(limit, page).Success?
    ensures var rows := PageReply(limit, page).value;
            && rows.nextPageToken == Token(limit, page) && rows.nextSyncToken == ""
            && |rows.rows| == PageRows(limit, page) <= PageSize(limit)
            && |ShownRows(PageReply(limit, page))| == PageRows(limit, page)
  {
    CopiesParsed(PageRows(limit, page));
    CopiesShown(ParseRow(ITEM).value, PageRows(limit, page));
  }

  // The answers from the page after `page` on.
  function Answers(limit: nat, page: nat): seq<Reply>
    decreases limit - page
  {
    if page >= limit then [] else [PageReply(limit, page + 1)] + Answers(limit, page + 1)
  }

  function At(page: nat): Cursor {
    if page == 0 then START else Cursor("more", "", false, false)
  }

  lemma {:induction false} AnswersAreRun(q: Query, limit: nat, page: nat, log: seq<Request>)
    requires |log| == page < limit
    ensures IsRun(OneRowAPage(limit), q, At(page), log, Answers(limit, page))
    decreases limit - page
  {
    var log' := log + [RequestFor(q, At(page))];
    assert |log'| == page + 1;
    ReplyRows(limit, page + 1);
    assert Answers(limit, page)[1..] == Answers(limit, page + 1);
    if page + 1 < limit {
      AnswersAreRun(q, limit, page + 1, log');
    }
  }

  lemma {:induction false} AnswersFit(limit: nat, page: nat)
    ensures forall i :: 0 <= i < |Answers(limit, page)| ==>
              Answers(limit, page)[i].Success? && |Answers(limit, page)[i].value.rows| <= PageSize(limit)
    decreases limit - page
  {
    if page < limit {
      ReplyRows(limit, page + 1);
      AnswersFit(limit, page + 1);
    }
  }

  lemma {:induction false} AnswersEmitted(limit: nat, page: nat)
    requires page < limit
    ensures |Emitted(Batches(Answers(limit, page)), limit - page)| == limit - page - 1 + PageSize(limit)
    decreases limit - page
  {
    var reply, later := PageReply(limit, page + 1), Answers(limit, page + 1);
    ReplyRows(limit, page + 1);
    MapConcat(ShownRows, [reply], later);
    MapPush(ShownRows, [], reply);
    assert [] + [reply] == [reply];
    assert Batches(Answers(limit, page))[1..] == Batches(later);
    if page + 1 < limit {
      AnswersEmitted(limit, page + 1);
    }
  }

  // "At most `limit` rows" is false of the code for every limit but one: this service answers
  // every scan, no page has more rows than asked for, and the scan hands out limit - 1 rows
  // and a whole page. No scan hands out more.
  lemma OvershootIsMet(q: Query, limit: nat)
    requires limit > 0
    ensures IsRun(OneRowAPage(limit), q, START, [], Answers(limit, 0))
    ensures forall i :: 0 <= i < |Answers(limit, 0)| ==>
              Answers(limit, 0)[i].Success? && |Answers(limit, 0)[i].value.rows| <= PageSize(limit)
    ensures |Emitted(Batches(Answers(limit, 0)), limit)| == limit + PageSize(limit) - 1
    ensures limit > 1 ==> |Emitted(Batches(Answers(limit, 0)), limit)| > limit
  {
    AnswersAreRun(q, limit, 0, []);
    AnswersFit(limit, 0);
    AnswersEmitted(limit, 0);
  }
}
