# Hotspot manager: request handling over a RouterOS hotspot, in Dafny

The hotspot manager is a PHP admin console for the hotspot of a MikroTik RouterOS
router. Through the router's API it manages:

- **vouchers**: hotspot users, grouped into *batches* by their comment;
- **user profiles**: rate limit, shared users and timeouts;
- **walled-garden rules**: hosts reachable before login;
- a **dashboard** that counts all of these.

Each page is one PHP script that reads the submitted form, sends a few requests to the
router, and either redirects or renders a page with a message.

This project models the request-handling logic of those scripts.

- **The router** (`routeros.dfy`) is a class `RouterOs.Router`. It holds:
  - one sequence of attribute rows per menu;
  - the log of every request sent;
  - the counter for the ids `/add` assigns;
  - a fixed failure oracle `rejects`, which maps a request's position in the log to the message of the exception it throws.

  `Execute` is `$client->query($q)->read()`. A request that is not rejected is carried out by `Apply` and answered by `Reply`.
- **PHP built-ins** (`php.dfy`, `phpint.dfy`) are modelled on `seq<char>` strings: `trim`, `strtolower`/`strtoupper`, `strpos`/`stripos`, `explode`/`implode`, `array_pad`, `str_replace`, `substr`, string order for `ksort`, `intval`, and int-to-string.
- **The session and page outcomes** (`console.dfy`): an `Outcome` is the message a handler sets plus the page it redirects to, if any.
- **One module per page:**
  - `vouchers.dfy`: batch listing, filter and search, export staging, batch delete, edit, batch create.
  - `exportpdf.dfy`: the one-shot hand-off to the PDF page.
  - `walledgarden.dfy`: server list, bulk delete, add/edit, edit lookup, row style.
  - `profile.dfy`: delete by name, the attribute builder, the rate-limit split, the delete-link guard.
  - `dashboard.dfy`: the metric counts.

Each handler is a method. Its postcondition gives the outcome, the requests it sent, and
the new router tables, for every path: validation failure, each possible rejected
request, and success. Loops in the source are loops here, each proved equal to a
specification function. The properties the pages rely on are lemmas about those functions:

- the batch list is strictly sorted and holds exactly the non-empty trimmed comments;
- filters keep order and exact membership;
- `explode` undoes `implode` for id lists and rate limits;
- a delete removes exactly the listed ids;
- the edit set is sparse;
- the create loop stops at the first failure and leaves the earlier vouchers stored.

### Behaviour of the code as written

- Batches are listed, filtered and exported by the *trimmed* comment (voucher.php:52, 72, 272). The batch delete, however, asks the router for users whose comment is *exactly* the name (voucher.php:129).
  - A user stored with comment `" Promo"` is listed under `Promo`, yet deleting batch `Promo` finds nothing (`Vouchers.DeleteMissesPaddedComment`).
  - After a batch delete, the batch lists empty only when every stored comment is already trimmed (`Vouchers.DeletedBatchIsGone`). Comments this console creates are trimmed.
- Messages set just before `header('Location: ...'); exit;` are never shown, because nothing carries them across the redirect. Examples: "N vouchers ... deleted", "Profile ... deleted", the bulk-delete count. The model still records them in `Outcome.message`, next to the redirect.
- The profile name, timeouts and rate parts are tested by PHP truthiness. A name or timeout of `"0"` therefore counts as missing.
- The profile save message says "updated" whenever the hidden `editing` field is truthy. This holds even when no profile of that name exists and an `/add` was sent (profile.php:96-119).
- The dashboard counts actions compared case-sensitively (`=== 'allow'`). The rules page styles rows case-insensitively, so an `Allow` rule is shown as allowed but counted as neither (`Dashboard.CaseMismatch`).
- Usernames in a batch are not guaranteed distinct, since tokens are random draws. No distinctness is claimed.

## Model

| member | source | states |
|---|---|---|
| Php.TrimStartShape | voucher.php:52 | ltrim keeps a suffix that starts with a kept character and drops only trim's characters |
| Php.TrimEndShape | voucher.php:52 | rtrim keeps a prefix that ends with a kept character and drops only trim's characters |
| Php.Trim | voucher.php:210 | trim is rtrim after ltrim; what it keeps and drops is stated by TrimStartShape, TrimEndShape, TrimEmptyIff and TrimIdempotent |
| Php.TrimEmptyIff | voucher.php:221 | trim gives "" exactly when every character is one trim strips, so "required" fields reject white-space-only input |
| Php.TrimIdempotent | voucher.php:72 | trimming a trimmed comment changes nothing |
| Php.ToLower | walledgarden.php:111 | strtolower maps each character through ASCII lower-casing; its properties are stated by ToLowerProperties |
| Php.ToLowerProperties | walledgarden.php:111 | strtolower keeps the length, leaves no upper-case ASCII letter and is idempotent |
| Php.FindFrom | voucher.php:634 | the found position holds the needle and is the first one at or after the start; None means no occurrence |
| Php.StrPos | voucher.php:634 | strpos returns the first occurrence, or None (PHP false) exactly when the needle occurs nowhere |
| Php.StrIPos | voucher.php:634 | stripos is strpos on the lower-cased arguments; its properties are stated by StrIPosIgnoresCase and StrIPosMatch |
| Php.LowerOfUpper | voucher.php:634 | lower-casing an upper-cased string gives the lower-cased string |
| Php.StrIPosIgnoresCase | voucher.php:634 | stripos gives the same answer whatever the case of the haystack or the needle |
| Php.StrIPosMatch | voucher.php:634 | at the position stripos reports, each needle character equals the haystack character up to ASCII case |
| Php.Explode | profile.php:347 | explode always returns at least one piece |
| Php.ExplodeWhole | profile.php:347 | a string without the separator explodes to itself alone |
| Php.ExplodeFirst | voucher.php:136 | a separator-free piece followed by the separator splits off exactly that piece |
| Php.ExplodeImplode | voucher.php:136 | exploding the ','-joined list gives back the list when no element holds ',' |
| Php.ImplodeExplode | profile.php:347 | joining the pieces of explode gives back the string |
| Php.Pad | profile.php:347 | array_pad keeps the elements and fills up to the length with the pad value |
| Php.StrLessIrreflexive | voucher.php:55 | the string order is irreflexive |
| Php.StrLessTransitive | voucher.php:55 | the string order is transitive |
| Php.StrLessTotal | voucher.php:55 | any two different strings are ordered one way or the other |
| Php.StrictlySortedDistinct | voucher.php:55 | a strictly sorted list has no duplicates |
| Php.Head | voucher.php:228-229 | substr($s, 0, $n) is the prefix of length min(n, \|s\|) |
| Php.Least | voucher.php:55 | returns a member of the set below every other member |
| Php.SortedKeys | voucher.php:55 | ksort of a key set: strictly ascending, exactly the keys, each once |
| PhpInt.DigitRunShape | voucher.php:211 | the digit run intval reads is the longest prefix of digits |
| PhpInt.Saturate | voucher.php:211 | the result is within the 64-bit range and equals the input when the input already is |
| PhpInt.NatToString | voucher.php:143 | the decimal form is non-empty, all digits and without a leading zero |
| PhpInt.DigitsValueOfNat | voucher.php:143 | the digits of n denote n |
| PhpInt.DigitRunOfDigits | voucher.php:211 | a string of digits is read whole |
| PhpInt.IntVal | voucher.php:211 | intval (and the `(int)` cast at profile.php:83) skips leading white space, reads an optional sign, digits, an optional fraction and exponent, truncates toward zero and saturates; the result is always within the 64-bit range |
| PhpInt.IntValExponent | voucher.php:211 | exponent forms are read by value: "1e2" is 100, ".5e1" is 5, "2e-1" is 0 |
| PhpInt.IntValUnsigned | voucher.php:211 | without white space or a sign in front, intval is the saturated magnitude of the numeric prefix |
| PhpInt.IntValMinus | voucher.php:211 | after a minus sign, intval is the saturated negated magnitude |
| PhpInt.MagnitudeOfExponent | voucher.php:211 | "1e2" denotes 100 |
| PhpInt.MagnitudeOfLeadingDot | voucher.php:211 | ".5e1" denotes 5 |
| PhpInt.MagnitudeOfNegativeExponent | voucher.php:211 | "2e-1" denotes 0.2, which truncates to 0 |
| PhpInt.DigitRunSplit | voucher.php:211 | a digit run followed by a non-digit is read exactly up to that non-digit |
| PhpInt.ScaledDropsFraction | voucher.php:211 | dropping the fraction's decimal places from ip followed by fp gives the value of ip |
| PhpInt.PointSplit | voucher.php:211 | in ip.fp the integer digits end at the point |
| PhpInt.FractionSplit | voucher.php:211 | after the point come exactly the fraction digits |
| PhpInt.MagnitudeTruncates | voucher.php:211 | for all digit strings ip (non-empty) and fp, ip.fp has the magnitude of ip |
| PhpInt.IntValTruncates | voucher.php:211 | for all digit strings, intval of ip.fp is the saturated value of ip |
| PhpInt.IntValTruncatesNegative | voucher.php:211 | for all digit strings, intval of -ip.fp is the saturated negated value of ip (truncation toward zero) |
| PhpInt.MagnitudeOfTrailingText | voucher.php:211 | "12abc" denotes 12 |
| PhpInt.IntValFraction | voucher.php:211 | leading white space is skipped and the fraction dropped: " 1.9" is 1 |
| PhpInt.IntValNegativeFraction | voucher.php:211 | a negative fraction truncates toward zero: "-3.7" is -3 |
| PhpInt.IntValTrailingText | voucher.php:211 | text after the number is ignored: "12abc" is 12 |
| PhpInt.AfterDigitsOfDigits | voucher.php:211 | a string of digits leaves nothing after its digit run |
| PhpInt.IntValNonNumeric | voucher.php:211 | intval of a string with no sign, digit or '.' after its leading white space is 0 |
| PhpInt.IntValIntToString | voucher.php:211 | intval reads every 64-bit int back from its decimal form |
| PhpInt.NatToStringInjective | voucher.php:143 | distinct counts print differently |
| RouterOs.LookupAppend | voucher.php:192-195 | a word added at the end is found only for a key not yet present |
| RouterOs.LookupNone | voucher.php:192-195 | a key is absent exactly when no word has it |
| RouterOs.LookupAppendWhen | profile.php:104-112 | an optional trailing word is seen only when its condition holds and its key is new |
| RouterOs.Equal | voucher.php:192-195 | `->equal()` sets the key if absent, changes no other key, and keeps keys distinct |
| RouterOs.ToRecord | voucher.php:191-196 | the attributes a request sets are exactly its keys, each with its first value |
| RouterOs.Select | voucher.php:128-132 | a print returns rows of the table, exactly those meeting the `where`, all rows without one |
| RouterOs.SelectConcat | voucher.php:128-132 | a print keeps table order and multiplicity: it distributes over concatenation |
| RouterOs.SelectFirst | profile.php:38-45 | the first row a print returns is the first matching row of the table |
| RouterOs.Column | voucher.php:135 | array_column is element-wise when every row has the key, never longer than the rows |
| RouterOs.IdOf | voucher.php:234-240 | device ids hold no ',' so they can be joined for `numbers` |
| RouterOs.UpdateRows | voucher.php:191-196 | `/set` leaves every row without the id as it was; a row with the id gets the union of its keys and the sent keys, the sent values on the sent keys and its old values elsewhere |
| RouterOs.RemoveIds | voucher.php:139-141 | `/remove` keeps exactly the rows whose id is not listed |
| RouterOs.RemoveIdsConcat | voucher.php:139-141 | `/remove` keeps table order and multiplicity: it distributes over concatenation |
| RouterOs.Apply | voucher.php:240 | how a request changes a table (print: nothing, add: append with a fresh id, set: UpdateRows, remove: RemoveIds); stated by ApplyWellFormed and Router.Execute |
| RouterOs.Reply | voucher.php:240 | a print answers its selection, every other request an empty reply; stated by Router.Execute |
| RouterOs.ApplyWellFormed | voucher.php:240 | every request keeps every row with a comma-free id |
| RouterOs.Router.Execute | voucher.php:240 | a request is logged; a rejected one throws its message and changes nothing; otherwise the reply is the print's selection and the table is updated |
| Console.Session.Stage | voucher.php:253-254 | both session slots hold the staged batch and its name |
| ExportPdf.RenderCards | export_pdf.php:107-126 | one card per staged voucher, in staging order, with its profile, username and password |
| ExportPdf.FileName | export_pdf.php:154 | the PDF file name; its shape is stated by FileNameShape |
| ExportPdf.FileNameShape | export_pdf.php:154 | the file name is the batch name with spaces turned into '_', then "_Vouchers_", the timestamp and ".pdf"; the batch part has no space |
| ExportPdf.Export | export_pdf.php:11-20 | an unset or empty slot fails with the no-data text and touches nothing; otherwise both slots are cleared and the document has the batch name (default "Voucher Batch") and all cards |
| ExportPdf.ExportTwice | export_pdf.php:15-20 | a second export with nothing staged in between always fails |
| Vouchers.FetchAllUsers | voucher.php:37-45 | all users, or none when the print throws |
| Vouchers.Tags | voucher.php:50-54 | the batch tags are exactly the non-empty trimmed comments of some user |
| Vouchers.CollectBatches | voucher.php:50-55 | the batch list is strictly sorted, duplicate-free and holds exactly the tags |
| Vouchers.Filter | voucher.php:268-276 | a filter keeps a sub-list: exactly the users meeting the criterion |
| Vouchers.FilterConcat | voucher.php:271-273 | filtering keeps relative order: it distributes over concatenation |
| Vouchers.FilterAll | voucher.php:634 | a criterion every user meets keeps the whole list |
| Vouchers.FilterNone | voucher.php:272 | a criterion no user meets keeps nothing |
| Vouchers.EmptySearchKeepsAll | voucher.php:631-634 | an empty search shows every user |
| Vouchers.FilterByBatch | voucher.php:268-276 | the rows shown are all users for an empty filter, else the users whose trimmed comment is the filter |
| Vouchers.SearchUsers | voucher.php:631-635 | the rows shown are those whose name contains the trimmed query case-insensitively; the counter is their number |
| Vouchers.ToVouchers | voucher.php:73-77 | one staged voucher per user |
| Vouchers.SelectForExport | voucher.php:70-79 | the export list is the vouchers of the users in the batch, in list order |
| Vouchers.ExportedVouchers | voucher.php:71-79 | every exported voucher is some batch member's and every batch member's voucher is exported |
| Vouchers.ExportBatch | voucher.php:65-95 | empty name or no members warn and stage nothing; otherwise the batch's vouchers and name are staged, the message stays empty with type success, and the page redirects to export_pdf.php |
| Vouchers.BatchIds | voucher.php:128-135 | the ids of the users whose comment is exactly the batch name; stated by BatchRemoval and DeletedBatchIsGone |
| Vouchers.BatchIdsJoin | voucher.php:135-136 | when some user is found, the joined batch ids split back into those ids, one per user found |
| Vouchers.BatchMembersListed | voucher.php:128-135 | every user whose comment is exactly the batch name has its id among the batch ids |
| Vouchers.BatchRemoval | voucher.php:134-141 | the joined ids split back into the ids, one per user found; no remaining user has the comment; only users sharing a found id go |
| Vouchers.DeleteMissesPaddedComment | voucher.php:123-132 | a user listed under a batch by its trimmed comment can be missed by the exact-comment delete |
| Vouchers.DeletedBatchIsGone | voucher.php:122-152 | with trimmed stored comments, no user is listed under a batch once it is deleted |
| Vouchers.RemoveBatch | voucher.php:136-156 | one `/remove` of the joined ids; a failure reports "Error deleting batch: ..." and changes nothing; success reports the count, redirects, and leaves the users without those ids and every other table as it was; the id counter never moves |
| Vouchers.DeleteBatch | voucher.php:122-162 | empty name warns and sends nothing; a failed print reports it; no match warns with no remove; otherwise one remove of the joined ids, the count reported, and the users become the rest; the id counter never moves |
| Vouchers.EditAttrs | voucher.php:185-195 | the edit set always has the id and has name, password, profile exactly when their trimmed value is non-empty, nothing else, no key twice |
| Vouchers.EditIsSparse | voucher.php:191-196 | the edit changes only the user with the id, only in the sent fields |
| Vouchers.EditSubmit | voucher.php:184-205 | one `/set` of the edit set; an error is reported, success redirects with the user updated; the id counter never moves |
| Vouchers.RunsCreate | voucher.php:208 | the create guard: a POST whose action is absent or not a reserved one; stated by HandlersExclusive |
| Vouchers.HandlersExclusive | voucher.php:208 | create never runs for export_batch, delete_batch or edit_submit, and runs for any other POST |
| Vouchers.VoucherCount | voucher.php:211-219 | the count is in [1, 500] |
| Vouchers.VoucherCountOfNumber | voucher.php:211-219 | a decimal count is clamped: below 1 gives 1, above 500 gives 500, else itself |
| Vouchers.VoucherCountNonNumeric | voucher.php:211-219 | a missing count, or one with no sign, digit or '.' after its leading white space, gives one voucher |
| Vouchers.VoucherCountExponent | voucher.php:211 | a count written "1e2", which a number field accepts, makes 100 vouchers |
| Vouchers.ReadBatchForm | voucher.php:210-219 | the count is in [1, 500]; the name, profile, prefixes and suffixes come out trimmed |
| Vouchers.BatchFormDefaults | voucher.php:211-212 | without a count one voucher is made, without a profile the 'default' profile is used |
| Vouchers.UserToken | voucher.php:228 | the upper-cased first 5 characters of the user draw; stated by TokenShape |
| Vouchers.PassToken | voucher.php:229 | the first 6 characters of the password draw; stated by TokenShape |
| Vouchers.NewVoucher | voucher.php:231-232 | prefix, token and suffix for username and password, with the form's profile; stated by CreatedVouchersShape |
| Vouchers.AddAttrs | voucher.php:234-238 | the add sets name, password, profile and the batch name as comment; stated by StoredInBatch |
| Vouchers.TokenShape | voucher.php:228-229 | from md5 digests the username token is 5 upper-case hex digits and the password token 6 lower-case ones |
| Vouchers.Planned | voucher.php:226-232 | n iterations plan n vouchers |
| Vouchers.FirstRejected | voucher.php:226-240 | the count of adds before the first that throws: all earlier ones go through, the next one throws |
| Vouchers.CreatedVouchersShape | voucher.php:226-232 | every voucher is prefix + its own 5-char token + suffix and prefix + 6-char token + suffix, with the form's profile |
| Vouchers.StoredInBatch | voucher.php:234-247 | every added user carries the batch name as comment (so it lists under that batch) and the voucher's fields |
| Vouchers.StoredInBatchOfForm | voucher.php:210-247 | for a form as read from the request, with a non-empty name, every added user lists under that name and carries its voucher |
| Vouchers.AddVouchers | voucher.php:226-248 | one add per voucher in order up to the first failure; exactly the vouchers before it are created and stored; no rollback |
| Vouchers.CreateBatch | voucher.php:208-265 | empty name warns and sends nothing; a full batch is staged and redirects to export; a failure at voucher k leaves vouchers 0..k-1 stored, stages nothing and reports the error |
| WalledGardenPage.CollectNames | walledgarden.php:32-37 | the server list is the name of every result that has one, in order |
| WalledGardenPage.ColumnMembers | walledgarden.php:33-37 | a name is listed exactly when some result carries it |
| WalledGardenPage.FetchHotspotServers | walledgarden.php:27-42 | the server names, or none when the print throws |
| WalledGardenPage.FetchWalledGarden | walledgarden.php:44-54 | all rules, or none when the print throws |
| WalledGardenPage.BulkRemoval | walledgarden.php:66-69 | removing the joined ticked ids removes exactly the rules with those ids |
| WalledGardenPage.BulkDelete | walledgarden.php:62-77 | for at least one ticked id: one remove of the joined ids, the count of ticked ids reported or the error; always back to the list; the id counter never moves |
| WalledGardenPage.ReadRuleForm | walledgarden.php:98-102 | action, server, host and comment come out trimmed; the edit id is taken as sent |
| WalledGardenPage.RuleAttrs | walledgarden.php:111-114 | action lower-cased, server, dst-host, comment in that order; stated by SavedRuleFields |
| WalledGardenPage.RuleCommand | walledgarden.php:109-125 | an add for an empty id, else a set led by the id; stated by SavedRuleFields |
| WalledGardenPage.SavedRuleFields | walledgarden.php:109-124 | add sets exactly action (lower case), server, dst-host, comment; set adds the id first |
| WalledGardenPage.SaveRule | walledgarden.php:97-136 | empty host warns and sends nothing; empty id adds, any other id sets; error reported, success redirects; the id counter moves by one exactly when an add goes through |
| WalledGardenPage.AddedRule | walledgarden.php:109-116 | an added rule is appended with the host, the lower-cased action and a fresh id |
| WalledGardenPage.UpdatedRule | walledgarden.php:117-125 | the rule with the id takes all four fields, others stay |
| WalledGardenPage.FirstWithId | walledgarden.php:147-152 | the first rule whose id is the requested one, or None exactly when no rule has it |
| WalledGardenPage.FindById | walledgarden.php:147-152 | the loop with break finds that first rule |
| WalledGardenPage.EditLoad | walledgarden.php:139-153 | the list is refetched exactly when empty or on a POST, and the first rule with the id is edited |
| WalledGardenPage.RowClass | walledgarden.php:408 | the row style from the action; stated by RowClassCases |
| WalledGardenPage.RowClassCases | walledgarden.php:408 | allow, Allow and ALLOW style as allow-row; deny and a missing action as deny-row; a row is allow-row exactly when its action is five characters equal to "allow" up to ASCII case |
| ProfilePage.DeleteProfile | profile.php:30-60 | finds by name; a failure, no match or falsy id is reported with no remove; else the first match's id is removed; always back to the list; the id counter never moves |
| ProfilePage.DeleteRemovesFirstMatch | profile.php:38-45 | the first match goes, and only profiles sharing its id |
| ProfilePage.ReadProfileForm | profile.php:80-87 | name, rates and timeouts come out trimmed; shared users is an `(int)` cast in the 64-bit range; editing is taken as sent; the defaults are stated by ProfileFormDefaults |
| ProfilePage.ProfileFormDefaults | profile.php:83-85 | missing shared_users sends 1, missing idle_timeout sends "5m" |
| ProfilePage.ProfileAttrs | profile.php:96-113 | the attributes of the save request; stated by ProfileAttrsFields |
| ProfilePage.ProfileCommand | profile.php:96-101 | a set when editing a found profile, else an add; stated by BuildProfileQuery |
| ProfilePage.BuildProfileQuery | profile.php:96-113 | the step-by-step query equals the declared add-or-set request |
| ProfilePage.ProfileAttrsFields | profile.php:96-113 | the id only on an update of a found profile; rate-limit "rx/tx" iff rx or tx is truthy; shared-users and name always; each timeout iff truthy; nothing else |
| ProfilePage.RateRoundTrip | profile.php:347 | splitting the sent "rx/tx" gives back rx and tx when neither holds '/' |
| ProfilePage.SplitRate | profile.php:347 | the rx and tx parts of a rate limit; stated by RateRoundTrip and SplitRateShort |
| ProfilePage.SplitRateShort | profile.php:343-347 | a rate without '/' (or none) shows as rx with an empty tx |
| ProfilePage.SaveProfile | profile.php:79-127 | a falsy name is refused without requests; else lookup then the built add/set; errors reported; success redirects with the table updated; the id counter moves by one exactly when an add goes through |
| ProfilePage.ShowsDeleteLink | profile.php:395 | the delete link is hidden exactly for the profile named 'default' |
| Dashboard.CountAction | dashboard.php:50-56 | a count never exceeds the number of rules |
| Dashboard.CountActionConcat | dashboard.php:50-56 | counting is additive over the list |
| Dashboard.CountsBounded | dashboard.php:63 | the total of allowed and denied never exceeds the rules |
| Dashboard.CountActionNone | dashboard.php:50-56 | a count is 0 exactly when no rule has that action |
| Dashboard.CountRules | dashboard.php:50-56 | the loop counts exactly the 'allow' rules and the 'deny' rules, compared case-sensitively |
| Dashboard.LoadMetrics | dashboard.php:17-60 | counts start at 0 and the error at null (`InitialMetrics`, dashboard.php:17-23); totals are the lengths of the profile and user lists; the first print that throws sets "API Error: ..." and keeps the totals already set |
| Dashboard.CaseMismatch | dashboard.php:51 | a rule "Allow" is styled allowed but counted neither allowed nor denied |

## Left out

- The RouterOS client and its wire protocol. The router is an abstract store with a failure oracle.
  - `.proplist` is not modelled: a print returns whole rows.
  - Device ids are `*` plus a counter, and only their lack of commas is relied on.
  - A `/set` with an unknown id changes nothing.
- The connection to the router and its failure. voucher.php, walledgarden.php and profile.php stop with `die("Connection failed: ...")`. dashboard.php catches the failure in the same `try` as its prints and reports it as "API Error: ..." (dashboard.php:26-60); LoadMetrics models that path only for a failing print, since the connection itself is not modelled. The login check that redirects to index.php is left out too; index.php is not part of this model.
- HTML rendering, `htmlspecialchars` and `urlencode`, all treated as identity. This includes the encoding applied to the ticked ids in the bulk delete. Also left out: Dompdf, `header()`, `exit`, `session_start`, and `date()`. The timestamp is a parameter.
- Randomness: `md5(uniqid(mt_rand()))` digests are inputs (`draws`). Usernames are not proved distinct.
- Php.SortedKeys and Vouchers.CollectBatches use plain character order. PHP's `ksort` compares numeric-string keys as numbers, so a batch list with numeric names may come out in another order.
- Vouchers.SearchUsers uses ASCII case folding. Locale details of `stripos` are not modelled.
- PhpInt.IntVal: PHP converts a string with a fraction or an exponent through a double; the model reads its exact decimal value and truncates it. The two differ where the double rounds ("1.99999999999999999" is 2 in PHP, 1 here) and where it overflows to infinity ("1e400" is 0 in PHP, PHP_INT_MAX here). This carries over to Vouchers.VoucherCount and ProfilePage.ReadProfileForm. Leading "0x" and "0b" forms are read as 0, as PHP 8 does for strings.
- The staged vouchers drop the `'batch'` key the create loop adds (voucher.php:246). The PDF page never reads it.
- Single voucher delete (voucher.php:98-119) and voucher edit load (voucher.php:164-181): outside the modelled core.
- Single walled-garden rule delete (walledgarden.php:79-94): outside the modelled core.
- Profile edit load (profile.php:62-76) and the profile list fetch (profile.php:129-135): outside the modelled core.
- The profile list for the voucher page's dropdown (voucher.php:27-34): outside the modelled core.
- The order in which one page load runs its handlers. Each handler is a method of its own, and the user list it is given is the one fetched before the handlers ran (voucher.php:47). Vouchers.RunsCreate gives the create guard.
- Concurrent administrators: the model is sequential.
