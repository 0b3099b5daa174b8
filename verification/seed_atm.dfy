/**
 * The ATM transaction logger seed: the report builder that prefixes a header
 * and puts every transaction on its own line, accumulating the text in a loop.
 */
module AtmLogger {
  import opened Text

  const Title := "=== ATM TRANSACTION REPORT ==="
  const Header := Title + "\n"

  /** Each transaction followed by a newline, in order. */
  function Body(transactions: seq<string>): (r: string)
    ensures |r| == TotalLength(transactions)
  {
    if |transactions| == 0 then ""
    else transactions[0] + "\n" + Body(transactions[1..])
  }

  /** The sum of `|t| + 1` over the transactions. */
  function TotalLength(transactions: seq<string>): nat {
    if |transactions| == 0 then 0
    else |transactions[0]| + 1 + TotalLength(transactions[1..])
  }

  /** Appending a transaction appends its line: what one loop iteration adds. */
  lemma {:induction false} BodySnoc(transactions: seq<string>, t: string)
    ensures Body(transactions + [t]) == Body(transactions) + t + "\n"
    decreases |transactions|
  {
    var s := transactions + [t];
    if |transactions| == 0 {
      assert s == [t] && s[1..] == [];
    } else {
      assert s[0] == transactions[0] && s[1..] == transactions[1..] + [t];
      BodySnoc(transactions[1..], t);
      assert Body(s) == s[0] + "\n" + Body(s[1..]);
    }
  }

  /** `generateReport`: the loop keeps the lines of the first `i` transactions. */
  method GenerateReport(transactions: seq<string>) returns (report: string)
    ensures report == Header + Body(transactions)
    ensures |report| == |Header| + TotalLength(transactions)
    ensures report[..|Header|] == Header
  {
    report := "";
    var i := 0;
    while i < |transactions|
      invariant 0 <= i <= |transactions|
      invariant report == Body(transactions[..i])
    {
      var line := transactions[i];
      BodySnoc(transactions[..i], line);
      assert transactions[..i + 1] == transactions[..i] + [line];
      report := report + line + "\n";
      i := i + 1;
    }
    assert transactions[..i] == transactions;
    report := Header + report;
  }

  lemma {:induction false} BodyIsJoin(transactions: seq<string>)
    requires |transactions| >= 1
    ensures Body(transactions) == JoinLines(transactions) + "\n"
    decreases |transactions|
  {
    if |transactions| > 1 {
      BodyIsJoin(transactions[1..]);
    }
  }

  lemma TitleIsOneLine()
    ensures '\n' !in Title
  {
    var a, b := "=== ATM TRANSACTION", " REPORT ===";
    assert Title == a + b;
    assert '\n' !in a;
    assert '\n' !in b;
  }

  /** The body splits into the transactions and the empty piece after the final newline. */
  lemma BodyLines(transactions: seq<string>)
    requires forall k :: 0 <= k < |transactions| ==> '\n' !in transactions[k]
    ensures SplitLines(Body(transactions)) == transactions + [""]
  {
    assert SplitLines("") == [""];
    if |transactions| > 0 {
      BodyIsJoin(transactions);
      assert Body(transactions) == JoinLines(transactions) + "\n" + "";
      SplitJoinedLines(transactions, "");
    }
  }

  /** A one-line title, a newline and the body split into the title and the transactions. */
  lemma LinesAfterTitle(title: string, transactions: seq<string>)
    requires '\n' !in title
    requires forall k :: 0 <= k < |transactions| ==> '\n' !in transactions[k]
    ensures SplitLines(title + "\n" + Body(transactions)) == [title] + transactions + [""]
  {
    var body := Body(transactions);
    SplitFirstLine(title, body);
    BodyLines(transactions);
    assert [title] + (transactions + [""]) == [title] + transactions + [""];
  }

  /**
   * Reading the report back line by line gives the title, then the
   * transactions in order, then the empty piece after the final newline.
   */
  lemma ReportLines(transactions: seq<string>)
    requires forall k :: 0 <= k < |transactions| ==> '\n' !in transactions[k]
    ensures SplitLines(Header + Body(transactions)) == [Title] + transactions + [""]
  {
    TitleIsOneLine();
    LinesAfterTitle(Title, transactions);
  }

  /** With no transactions the report is the header alone. */
  lemma EmptyReport()
    ensures Header + Body([]) == "=== ATM TRANSACTION REPORT ===\n"
  {
  }
}
