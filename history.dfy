/**
 * The history page: the 50 most recent sessions, each shown with its title
 * (template name, else name, else "Freeform"), its start date read as UTC
 * by appending 'Z', and a colour for its status.
 */
module History {
  import opened Wrappers
  import opened Text
  import opened Models
  import opened Display
  import Dates
  import Client
  import Sessions
  import Db
  import Order

  const PageSize := 50

  /** The request the page makes. */
  function Params(): SessionListParams {
    SessionListParams(Some(PageSize), None, None)
  }

  /** The page asks for "/sessions?limit=50". */
  lemma RequestPath()
    ensures Client.ListSessionsPath(Params()) == "/sessions?limit=50"
  {
    assert IntToString(50) == "50" by {
      assert NatToString(50) == NatToString(5) + [DigitChar(0)];
    }
    assert Client.QueryPairs(Params()) == [("limit", "50")];
    assert Client.PairTexts([("limit", "50")]) == [Client.PairText(("limit", "50"))];
    assert Client.EncodeQuery([("limit", "50")]) == "limit=50";
  }

  /**
   * The server reads that query back as a limit of 50 and no offset or
   * template, so at most 50 sessions arrive, newest first.
   */
  lemma RequestsFifty(ss: seq<Db.SessionRow>)
    ensures Client.ParseQuery(Client.EncodeQuery(Client.QueryPairs(Params()))) == Params()
    ensures var r := Sessions.ListedRows(ss, Params());
      |r| <= PageSize && Order.SortedBy(r, Sessions.ByStartedDesc())
  {
    Client.QueryRoundTrip(Params());
    Sessions.ListedRowsSpec(ss, Params());
  }

  datatype Colour = Green | Red | Amber

  /** The status colour: green for "completed", red for "abandoned", amber for anything else. */
  function StatusColour(status: string): (c: Colour)
    ensures c == Green <==> status == "completed"
    ensures c == Red <==> status == "abandoned"
    ensures c == Amber <==> status != "completed" && status != "abandoned"
  {
    if status == "completed" then Green else if status == "abandoned" then Red else Amber
  }

  /** An open session (active or paused) shows amber. */
  lemma OpenIsAmber(status: string)
    requires IsOpen(status)
    ensures StatusColour(status) == Amber
  {
  }

  /** The text handed to `Date`: the start time with 'Z' appended, whatever its form. */
  function DateText(startedAt: string): (r: string)
    ensures |r| == |startedAt| + 1 && r[..|startedAt|] == startedAt && r[|startedAt|] == 'Z'
  {
    startedAt + "Z"
  }

  /**
   * Unlike `parseDate`, the page does not rewrite the space of a SQLite
   * timestamp into 'T': both texts carry the 'Z', but they differ at index 10.
   */
  lemma DateTextKeepsTheSpace(s: string)
    requires Dates.IsSqliteTimestamp(s)
    ensures DateText(s)[10] == ' ' && Dates.Normalize(s)[10] == 'T'
    ensures DateText(s) != Dates.Normalize(s)
    ensures |DateText(s)| == |Dates.Normalize(s)| == 20
  {
    Dates.NormalizeShape(s);
    assert Dates.PatternChar(10, s[10]);
  }

  /** A start time that already ends in 'Z' gets a second one, where `parseDate` leaves it alone. */
  lemma DateTextDoublesAZone(s: string)
    requires EndsWith(s, "Z")
    ensures EndsWith(DateText(s), "ZZ")
    ensures Dates.Normalize(s) == s != DateText(s)
  {
    assert s[|s| - 1] == 'Z' && !IsDigit('Z');
    assert DateText(s)[|DateText(s)| - 2..] == "ZZ";
  }
}
