/** What every page of the console shares: form input, the message a handler sets, vouchers and the session. */
module Console {
  import opened Php

  /** $_POST or $_GET: field names to submitted strings. */
  type Form = map<string, string>

  /** The `$message_type` of a page: 'success', 'warning' or 'error'. */
  datatype Kind = Success | Warning | Error

  datatype Message = Message(kind: Kind, text: string)

  /**
   * What a request handler leaves behind: the message it set and, when it calls
   * header('Location: ...') and exits, the page it redirects to. Nothing carries the
   * message across a redirect, so a redirected request never shows it.
   */
  datatype Outcome = Outcome(message: Message, redirect: Option<string>)

  /** A voucher as it is staged for printing: `['username' => ..., 'password' => ..., 'profile' => ...]`. */
  datatype Voucher = Voucher(username: string, password: string, profile: string)

  /** The two session slots that hand a batch from voucher.php to export_pdf.php. */
  class Session {
    /** $_SESSION['vouchers_to_print'] */
    var vouchersToPrint: Option<seq<Voucher>>
    /** $_SESSION['vouchers_batch_name'] */
    var vouchersBatchName: Option<string>

    constructor ()
      ensures vouchersToPrint == None && vouchersBatchName == None
    {
      vouchersToPrint, vouchersBatchName := None, None;
    }

    /** Stores a batch for the next export. */
    method Stage(vouchers: seq<Voucher>, batchName: string)
      modifies this
      ensures vouchersToPrint == Some(vouchers) && vouchersBatchName == Some(batchName)
    {
      vouchersToPrint, vouchersBatchName := Some(vouchers), Some(batchName);
    }
  }
}
