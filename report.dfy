/**
  The pieces of the replies the handlers send about a set of expenses: the
  summary header, one line per person with a "recebe"/"deve" status, one
  line per payment, and the three-part totals reply. The `:.2f` rendering
  of an amount is the parameter `money`; everything else is written out.
 */
module Report {
  import opened Ledger
  import opened Settlement
  import opened Decimal
  import opened Text

  /** The reply for no expenses of the two `format_*` helpers. */
  const NO_EXPENSES_TEXT := "Nenhum gasto encontrado."

  /** Opens the payments part of a summary. */
  const PAYMENTS_HEADING := "\n**Quem deve para quem:**\n"

  /** The payments part of the totals reply when there are no payments. */
  const ALL_SETTLED := "Todos estão quitados!"

  /** `abs(x)`. */
  function Abs(x: real): (r: real)
    ensures r >= 0.0 && (r == x || r == -x)
  {
    if x < 0.0 then -x else x
  }

  /** `"recebe" if balance > 0 else "deve"`: a zero balance reads "deve". */
  function Status(balance: real): string {
    if balance > 0.0 then "recebe" else "deve"
  }

  /** The lines one after another, as a loop of `text += line` builds them. */
  function Concat(lines: seq<string>): string
    decreases |lines|
  {
    if |lines| == 0 then "" else Concat(lines[..|lines| - 1]) + lines[|lines| - 1]
  }

  /** The first lines of a summary, down to the per-person heading. */
  function SummaryHeader(title: string, month: nat, year: nat, totalSum: real, peopleCount: nat,
                         average: real, money: real -> string): (h: string)
    ensures |h| >= 2 && h[..2] == "**"
  {
    "**" + title + " " + Pad2(month) + "/" + NatToString(year) + ":**\n\n"
    + "**Total de gastos:** R$ " + money(totalSum) + "\n"
    + "**Pessoas envolvidas:** " + NatToString(peopleCount) + "\n"
    + "**Média por pessoa:** R$ " + money(average) + "\n\n"
    + "**Gastos por pessoa:**\n"
  }

  /** `f"{person}: R$ {total:.2f} ({status} R$ {abs(balance):.2f})\n"`. */
  function PersonLine(person: string, total: real, balance: real, money: real -> string): string {
    person + ": R$ " + money(total) + " (" + Status(balance) + " R$ " + money(Abs(balance)) + ")\n"
  }

  /** `f"{debtor} deve R$ {amount:.2f} para {creditor}"`. */
  function PaymentLine(p: Payment, money: real -> string): string {
    p.debtor + " deve R$ " + money(p.amount) + " para " + p.creditor
  }

  /** The person lines of the save and load replies: the totals by name, each
      against the average. */
  function SortedPersonLines(totals: seq<Entry>, average: real, money: real -> string): (lines: seq<string>)
    ensures |lines| == |totals|
  {
    var items := SortedItems(totals);
    seq(|items|, i requires 0 <= i < |items| =>
      PersonLine(items[i].person, items[i].amount, items[i].amount - average, money))
  }

  /** One `PaymentLine` per payment, each ended by a newline. */
  function PaymentLines(ps: seq<Payment>, money: real -> string): (lines: seq<string>)
    ensures |lines| == |ps|
  {
    seq(|ps|, i requires 0 <= i < |ps| => PaymentLine(ps[i], money) + "\n")
  }

  /** A summary: the header, the person lines and, when there are
      payments, the payment lines. */
  function Summary(header: string, personLines: seq<string>, paymentLines: seq<string>): string {
    header + Concat(personLines)
    + (if |paymentLines| > 0 then PAYMENTS_HEADING + Concat(paymentLines) else "")
  }

  /** `f"{person}: R$ {total:.2f}"`. */
  function TotalLine(e: Entry, money: real -> string): string {
    e.person + ": R$ " + money(e.amount)
  }

  /** `f"{person}: {'recebe' if balance > 0 else 'deve'} R$ {abs(balance):.2f}"`. */
  function BalanceLine(e: Entry, money: real -> string): string {
    e.person + ": " + Status(e.amount) + " R$ " + money(Abs(e.amount))
  }

  /** One `TotalLine` per entry. */
  function TotalLines(es: seq<Entry>, money: real -> string): (lines: seq<string>)
    ensures |lines| == |es|
  {
    seq(|es|, i requires 0 <= i < |es| => TotalLine(es[i], money))
  }

  /** One `BalanceLine` per entry. */
  function BalanceLines(es: seq<Entry>, money: real -> string): (lines: seq<string>)
    ensures |lines| == |es|
  {
    seq(|es|, i requires 0 <= i < |es| => BalanceLine(es[i], money))
  }

  /** One `PaymentLine` per payment, without newlines. */
  function PaymentTexts(ps: seq<Payment>, money: real -> string): (lines: seq<string>)
    ensures |lines| == |ps|
  {
    seq(|ps|, i requires 0 <= i < |ps| => PaymentLine(ps[i], money))
  }

  /** The totals reply: the three parts, each joined with newlines. */
  function TotalsReply(totalLines: seq<string>, balanceLines: seq<string>, paymentLines: seq<string>): string {
    "**Total por pessoa:**\n" + JoinWith(totalLines, '\n') + "\n\n"
    + "**Balanços:**\n" + JoinWith(balanceLines, '\n') + "\n\n"
    + "**Quem deve para quem:**\n"
    + (if |paymentLines| > 0 then JoinWith(paymentLines, '\n') else ALL_SETTLED)
  }

  /** The loop `for ...: text += line`, over the lines it appends. */
  method AppendLines(text: string, lines: seq<string>) returns (r: string)
    ensures r == text + Concat(lines)
  {
    r := text;
    for i := 0 to |lines|
      invariant r == text + Concat(lines[..i])
    {
      ConcatStep(lines, i);
      r := r + lines[i];
    }
    assert lines[..|lines|] == lines;
  }

  /** One more line appended by a `text += line` step. */
  lemma ConcatStep(lines: seq<string>, i: nat)
    requires i < |lines|
    ensures Concat(lines[..i + 1]) == Concat(lines[..i]) + lines[i]
  {
    assert lines[..i + 1][..i] == lines[..i];
  }

  /** The status is "recebe" exactly for a positive balance, otherwise "deve". */
  lemma StatusCases(balance: real)
    ensures Status(balance) == "recebe" <==> balance > 0.0
    ensures Status(balance) == "deve" <==> balance <= 0.0
  {
  }

  /** A summary starts with its header, so with `*` when the header starts
      with `**`, and is then never the no-expenses reply. */
  lemma SummaryNotEmptyReply(header: string, personLines: seq<string>, paymentLines: seq<string>)
    requires |header| >= 2 && header[..2] == "**"
    ensures var s := Summary(header, personLines, paymentLines);
      |s| > 0 && s[0] == '*' && s != NO_EXPENSES_TEXT
  {
    var s := Summary(header, personLines, paymentLines);
    assert s[0] == header[0] == '*';
  }

  /** The totals reply starts with `*`, so it is never the no-expenses reply. */
  lemma TotalsReplyNotEmptyReply(totalLines: seq<string>, balanceLines: seq<string>, paymentLines: seq<string>)
    ensures var s := TotalsReply(totalLines, balanceLines, paymentLines);
      |s| > 0 && s[0] == '*' && s != NO_EXPENSES_TEXT
  {
    assert TotalsReply(totalLines, balanceLines, paymentLines)[0] == '*';
  }
}
