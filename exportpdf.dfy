/**
 * export_pdf.php: takes the staged batch out of the session exactly once and lays it
 * out as one card per voucher; the PDF engine itself is not part of this model.
 */
module ExportPdf {
  import opened Php
  import opened Console

  const NoDataText := "No voucher data found for export. Please generate or select a batch first."
  const DefaultBatchName := "Voucher Batch"

  /** The printed card of one voucher: its profile, username and password. */
  datatype Card = Card(profile: string, username: string, password: string)

  /** The document handed to the PDF engine: its title, its cards in order, and the download name. */
  datatype Pdf = Pdf(title: string, cards: seq<Card>, filename: string)

  function CardOf(v: Voucher): Card
  {
    Card(v.profile, v.username, v.password)
  }

  /** The loop that appends one card per staged voucher to `$html`. */
  method RenderCards(vouchers: seq<Voucher>) returns (cards: seq<Card>)
    ensures |cards| == |vouchers|
    ensures forall i :: 0 <= i < |vouchers| ==> cards[i] == CardOf(vouchers[i])
  {
    cards := [];
    for i := 0 to |vouchers|
      invariant |cards| == i
      invariant forall j :: 0 <= j < i ==> cards[j] == CardOf(vouchers[j])
    {
      cards := cards + [CardOf(vouchers[i])];
    }
  }

  /** The download name: the batch name with spaces turned into '_', then '_Vouchers_', the timestamp and '.pdf'. */
  function FileName(batchName: string, timestamp: string): string
  {
    ReplaceChar(batchName, ' ', '_') + "_Vouchers_" + timestamp + ".pdf"
  }

  /** The batch part of the name keeps every other character in place and holds no space. */
  lemma FileNameShape(batchName: string, timestamp: string)
    ensures var f := FileName(batchName, timestamp);
      var b := f[..|batchName|];
      && f == b + "_Vouchers_" + timestamp + ".pdf"
      && ' ' !in b
      && forall i :: 0 <= i < |batchName| ==> b[i] == if batchName[i] == ' ' then '_' else batchName[i]
  {
    var b := ReplaceChar(batchName, ' ', '_');
    assert FileName(batchName, timestamp)[..|batchName|] == b;
    assert forall i :: 0 <= i < |b| ==> b[i] != ' ';
  }

  /**
   * The whole page: with nothing (or an empty list) staged it dies with a message;
   * otherwise it reads both slots, clears them, and builds the document.
   */
  method Export(session: Session, timestamp: string) returns (r: Result<Pdf>)
    modifies session
    ensures old(session.vouchersToPrint) == None || old(session.vouchersToPrint) == Some([]) ==>
      r == Err(NoDataText) && unchanged(session)
    ensures old(session.vouchersToPrint) != None && old(session.vouchersToPrint) != Some([]) ==>
      var vouchers := old(session.vouchersToPrint).value;
      var name := if old(session.vouchersBatchName).Some? then old(session.vouchersBatchName).value else DefaultBatchName;
      && session.vouchersToPrint == None && session.vouchersBatchName == None
      && r.Ok? && r.value.title == name && r.value.filename == FileName(name, timestamp)
      && |r.value.cards| == |vouchers|
      && forall i :: 0 <= i < |vouchers| ==> r.value.cards[i] == CardOf(vouchers[i])
  {
    if session.vouchersToPrint == None || session.vouchersToPrint == Some([]) {
      return Err(NoDataText);
    }
    var vouchers := session.vouchersToPrint.value;
    var name := if session.vouchersBatchName.Some? then session.vouchersBatchName.value else DefaultBatchName;
    session.vouchersToPrint, session.vouchersBatchName := None, None;
    var cards := RenderCards(vouchers);
    r := Ok(Pdf(name, cards, FileName(name, timestamp)));
  }

  /** The hand-off is one-shot: a second export with nothing staged in between fails. */
  method ExportTwice(session: Session, first: string, second: string) returns (r1: Result<Pdf>, r2: Result<Pdf>)
    modifies session
    ensures r2 == Err(NoDataText)
    ensures session.vouchersToPrint == None || session.vouchersToPrint == Some([])
  {
    r1 := Export(session, first);
    r2 := Export(session, second);
  }
}
