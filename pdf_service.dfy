/** The pure part of `generateReceipt` in gym-server/services/pdfService.js: the file
    name built from the member id and the current millisecond, the returned path, and
    the plan table of the "Amount Paid" line. Drawing the PDF and streaming it to disk are
    an oracle that either writes the file, fails, or leaves no file behind. */
module PdfService {
  import opened UserModel
  import opened Text
  import opened Formatters

  /** The prefix every receipt of member `id` starts with. */
  function ReceiptPrefix(id: Id): string {
    "receipt-" + id + "-"
  }

  /** `receipt-<id>-<Date.now()>.pdf`. */
  function ReceiptFileName(id: Id, millis: nat): (name: string)
    ensures StartsWith(name, ReceiptPrefix(id))
  {
    ReceiptPrefix(id) + NatToString(millis) + ".pdf"
  }

  /** The path `generateReceipt` returns. */
  function ReceiptUrl(fileName: string): string {
    "/receipts/" + fileName
  }

  /** A receipt name determines the millisecond it was generated at, so two approvals of
      one member at different milliseconds leave two different files. */
  lemma ReceiptNameDeterminesInstant(id: Id, t1: nat, t2: nat)
    requires ReceiptFileName(id, t1) == ReceiptFileName(id, t2)
    ensures t1 == t2
  {
    var a, b := ReceiptFileName(id, t1), ReceiptFileName(id, t2);
    var p := |ReceiptPrefix(id)|;
    assert a[p..|a| - 4] == NatToString(t1);
    assert b[p..|b| - 4] == NatToString(t2);
    NatToStringInjective(t1, t2);
  }

  /** With ids free of '-' (MongoDB ids are hexadecimal), a receipt name starts with the
      prefix of exactly one member: its owner. */
  lemma PrefixIdentifiesOwner(owner: Id, other: Id, t: nat)
    requires '-' !in owner && '-' !in other
    requires StartsWith(ReceiptFileName(owner, t), ReceiptPrefix(other))
    ensures other == owner
  {
    var name := ReceiptFileName(owner, t);
    var po := ReceiptPrefix(other);
    assert name[..|po|] == po;
    // The first '-' after "receipt-" ends the id, whichever prefix is used to find it.
    forall k | 8 <= k < 8 + |owner|
      ensures name[k] != '-'
    {
      assert name[k] == owner[k - 8];
    }
    assert name[8 + |owner|] == '-';
    IndexOfFromAt(name, '-', 8, 8 + |owner|);
    forall k | 8 <= k < 8 + |other|
      ensures name[k] != '-'
    {
      assert name[k] == po[k] == other[k - 8];
    }
    assert name[8 + |other|] == po[8 + |other|] == '-';
    IndexOfFromAt(name, '-', 8, 8 + |other|);
    assert other == po[8..8 + |other|] == name[8..8 + |owner|] == owner;
  }

  /** The "Amount Paid" text: the price table of the five plans, 'N/A' for any other plan. */
  function ReceiptAmount(plan: string): string {
    if plan == "1month" then "₹1,500"
    else if plan == "2month" then "₹2,500"
    else if plan == "3month" then "₹3,500"
    else if plan == "6month" then "₹5,000"
    else if plan == "yearly" then "₹8,000"
    else "N/A"
  }

  /** A four-digit rupee amount with its thousands separator. */
  function RupeeText(n: nat): string
    requires 1000 <= n <= 9999
  {
    "₹" + [DigitChar(n / 1000)] + "," + [DigitChar(n / 100 % 10), DigitChar(n / 10 % 10), DigitChar(n % 10)]
  }

  /** The receipt prints 'N/A' exactly where `getPlanAmount` gives 0. */
  lemma ReceiptAmountMissingIffUnpriced(plan: string)
    ensures ReceiptAmount(plan) == "N/A" <==> PlanAmount(plan) == 0
  {
    if PlanAmount(plan) != 0 {
      assert ReceiptAmount(plan)[0] == '₹';
    }
  }

  /** The receipt's table agrees with `getPlanAmount`: same plans, same amounts. */
  lemma ReceiptAmountAgreesWithFormatters(plan: string)
    ensures PlanAmount(plan) != 0 ==> 1000 <= PlanAmount(plan) <= 9999 && ReceiptAmount(plan) == RupeeText(PlanAmount(plan))
  {
    if plan == "1month" {
      assert RupeeText(1500) == ['₹', '1', ',', '5', '0', '0'];
    } else if plan == "2month" {
      assert RupeeText(2500) == ['₹', '2', ',', '5', '0', '0'];
    } else if plan == "3month" {
      assert RupeeText(3500) == ['₹', '3', ',', '5', '0', '0'];
    } else if plan == "6month" {
      assert RupeeText(5000) == ['₹', '5', ',', '0', '0', '0'];
    } else if plan == "yearly" {
      assert RupeeText(8000) == ['₹', '8', ',', '0', '0', '0'];
    }
  }

  /** What writing the PDF comes to: the stream finishes and the file exists, the stream
      reports an error, or the stream finishes but the file is not there. */
  datatype WriteOutcome = Written | StreamError(message: string) | FileMissing

  datatype ReceiptResult = ReceiptCreated(fileName: string, url: string) | ReceiptFailed(message: string)

  /** `generateReceipt(user)` at millisecond `millis`: the path of the new file, or the error
      it rethrows. */
  function GenerateReceipt(member: Member, millis: nat, write: WriteOutcome): (r: ReceiptResult)
    ensures r.ReceiptCreated? <==> write == Written
    ensures r.ReceiptCreated? ==>
      && StartsWith(r.fileName, ReceiptPrefix(member.id))
      && r.url == "/receipts/receipt-" + member.id + "-" + NatToString(millis) + ".pdf"
    ensures write == FileMissing ==> r.message == "Failed to create receipt file"
    ensures write.StreamError? ==> r.message == write.message
  {
    var fileName := ReceiptFileName(member.id, millis);
    match write
    case Written => ReceiptCreated(fileName, ReceiptUrl(fileName))
    case StreamError(msg) => ReceiptFailed(msg)
    case FileMissing => ReceiptFailed("Failed to create receipt file")
  }
}
