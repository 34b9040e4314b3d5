# Hotel reservation engine, in Dafny

A model of the storage and booking engine of a console hotel-reservation
program (`Code.java`). The program keeps a small room inventory and a
reservations file. Each reservation is one comma-separated line with eleven
fields: id, room id, guest name, check-in, check-out, total amount, creation
time, payment transaction id, payment status, reservation status and refund
transaction id. The engine:

- writes and reads those lines with a small CSV codec (`joinCsv`/`splitCsv`,
  `nullIfEmpty`/`emptyIfNull`);
- answers which rooms are free for a stay (`findAvailable`). A stay is the
  half-open interval [check-in, check-out). Two stays clash only when they
  really overlap, so back-to-back stays are allowed;
- creates a booking with the next id (largest id plus one, or 1001 for an
  empty store) and appends it;
- cancels a booking by rewriting the whole file, and fails for an unknown id;
- simulates a payment processor. A charge needs a positive amount and a
  16-digit card number that passes the Luhn check. A refund needs the
  original payment's transaction id;
- applies the cancellation policy of the console. A cancelled booking cannot
  be cancelled again. A refund is attempted only two or more days before
  check-in, and a refused refund aborts the cancellation.

Modules, one per part of the engine:

| module | models |
|---|---|
| `Base` | `Option`, `Result`, `Outcome`; Java `int`/`long` ranges; 64-bit increment with wrap-around |
| `CsvCodec` | `joinCsv`, `splitCsv`, `nullIfEmpty`, `emptyIfNull`, and what a write-then-read does to a field |
| `Decimal` | `String.valueOf` for integers, `Long.parseLong`, `Integer.parseInt` |
| `Records` | `RoomType`, `Room`, `Reservation`, the status enums, `Reservation.toCsv`/`fromCsv` |
| `RoomCatalog` | `datesOverlap`, `findAvailable`, `byId`, `saveAll`; class `Catalog` |
| `ReservationStorage` | `loadAll`, `create`, `cancel`, `findById`; class `ReservationStore`, whose state is the file's lines |
| `Payments` | `charge`, `refund`, `isPlausibleCard`, `luhn`, `genTxn` |
| `CancelPolicy` | the decision part of the console's cancel command |
| `Scenario` | the seeded inventory and a book-then-cancel run through the classes above |

### What a write-then-read keeps

`joinCsv` quotes a field that holds a comma or a quote and doubles its inner
quotes (Code.java:335-336), as if the reader would undouble them. But
`splitCsv` only toggles an "inside quotes" flag at every quote character and
never keeps a quote (Code.java:324). So a record does not survive a write
and a read exactly when a text field holds a quote. Each quote character is
lost: `O"Neil` is written as
`"O""Neil"` and read back as `ONeil`. Commas do survive. The model follows
the code. `CsvCodec.SplitJoin` states exactly what comes back: every field,
in order, with its quotes removed. The exact round trip is proved only for
quote-free fields. `Records.DecodeEncode` lifts this to whole reservations.
A present but empty transaction id also comes back absent, because
`nullIfEmpty` turns an empty field into `null`.

## Model

| member | source | states |
|---|---|---|
| `CsvCodec.NullIfEmpty` | Code.java:315 | an empty field becomes absent; any other field stays present and unchanged |
| `CsvCodec.EmptyIfNull` | Code.java:316 | an absent value is written as the empty field; a present one as itself |
| `CsvCodec.NullIfEmptyEmptyIfNull` | Code.java:315-316 | writing then reading an optional field gives it back exactly when it is not a present empty string |
| `CsvCodec.EmptyIfNullNullIfEmpty` | Code.java:315-316 | reading then writing a field always gives it back |
| `CsvCodec.JoinCsv` | Code.java:331-341 | the builder loop produces `Join`: fields quoted when they hold a comma or quote, inner quotes doubled, separated by commas |
| `CsvCodec.SplitCsv` | Code.java:318-330 | the character loop produces `Split`: it toggles the quote flag, splits at commas outside quotes and always yields at least one field |
| `CsvCodec.Split` | Code.java:318-330 | a line always splits into at least one field |
| `CsvCodec.SplitNoQuotes` | Code.java:318-330 | no field read from any line holds a quote character |
| `CsvCodec.SplitJoin` | Code.java:318-341 | for one or more fields, splitting the joined line gives every field back, in order, with its quotes removed; the field count is kept even with embedded commas |
| `CsvCodec.SplitJoinQuoteFree` | Code.java:318-341 | fields without quotes, commas allowed, round-trip exactly |
| `CsvCodec.SplitJoinQuoteLost` | Code.java:318-341 | a field holding a quote never round-trips |
| `CsvCodec.SplitJoinLosesQuotes` | Code.java:318-341 | a field `a"b` with quote-free `a`, `b` is written as `"a""b"` and read back as `ab` |
| `CsvCodec.SplitJoinEmpty` | Code.java:318-341 | joining no fields and splitting gives one empty field |
| `CsvCodec.StripQuotesIdentity` | Code.java:324 | dropping quote characters changes a field exactly when it holds one |
| `Base.Inc64` | Code.java:411 | the Java `long` increment: one more, except that the 64-bit maximum wraps to the minimum |
| `Decimal.ParseLong` | Code.java:292 | a number is accepted exactly when it is decimal text whose value fits in 64 bits, and then it is that value |
| `Decimal.ParseInt32` | Code.java:293 | a number is accepted exactly when it is decimal text whose value fits in 32 bits, and then it is that value |
| `Decimal.IntToString` | Code.java:308 | the decimal text of an integer is non-empty and made of digits and a minus sign |
| `Decimal.ParseIntToString` | Code.java:292-293 | reading the decimal text of any integer gives the integer back |
| `Decimal.ParseWidthsToString` | Code.java:292-293 | a 64-bit id and a 32-bit room id survive writing and reading at their own widths |
| `Decimal.ParseOutOfRange` | Code.java:292-293 | text of a value outside the 32-bit or 64-bit range is rejected by that width's reader |
| `Records.ToCsv` | Code.java:306-313 | the line of a reservation is its eleven fields, numbers as decimal text (`IntToString`, for `String.valueOf`), joined by the codec |
| `Records.FromCsv` | Code.java:289-304 | the reservation read from a line is `Decode`: fewer than eleven fields or a field that does not parse gives a malformed record |
| `Records.ParsePayStatus` | Code.java:300 | only the exact constant names are accepted, each giving its constant |
| `Records.ParseResStatus` | Code.java:301 | only the exact constant names are accepted, each giving its constant |
| `Records.DecodeEncode` | Code.java:289-313 | reading the line of any reservation gives it back, except that quotes leave the guest name and the transaction ids and an empty id comes back absent |
| `Records.DecodeEncodeNormal` | Code.java:289-313 | a reservation without quotes or empty ids round-trips exactly |
| `Records.DecodeEncodeDecode` | Code.java:289-313 | writing back what was read and reading it again gives the same reservation |
| `Records.DecodeIsNormal` | Code.java:289-304 | a reservation read from a line has no quotes in its text and no empty ids |
| `Records.GuestQuoteLost` | Code.java:289-313 | a guest name `a"b` comes back as `ab`, so that reservation does not round-trip |
| `Records.EncodeHasComma` | Code.java:306-313 | a stored line always holds a comma |
| `RoomCatalog.DatesOverlap` | Code.java:386-390 | two stays overlap exactly when both are non-empty and each starts before the other ends (half-open intervals) |
| `RoomCatalog.DatesOverlapSymmetric` | Code.java:386-390 | overlap does not depend on which stay comes first |
| `RoomCatalog.BackToBackNoOverlap` | Code.java:386-390 | a stay ending on the day another starts does not overlap it |
| `RoomCatalog.DegenerateNoOverlap` | Code.java:386-390 | an empty or inverted stay overlaps nothing |
| `RoomCatalog.WithType` | Code.java:370 | the type filter keeps exactly the rooms of the requested type; with no type given it returns the inventory unchanged |
| `RoomCatalog.WithTypeIsSubsequence` | Code.java:370 | the type filter keeps the inventory's order |
| `RoomCatalog.AvailableMember` | Code.java:368-384 | a room is offered exactly when it is in the inventory, has the requested type and no non-cancelled reservation of that room overlaps the stay |
| `RoomCatalog.AvailableIsSubsequence` | Code.java:368-384 | the offered rooms keep the inventory's order |
| `RoomCatalog.AvailableWithType` | Code.java:368-384 | filtering by type before the scan does not change the result |
| `RoomCatalog.AvailableGrowsOnCancel` | Code.java:373-376 | cancelling reservations never withdraws a room from the offer |
| `RoomCatalog.Catalog.FindAvailable` | Code.java:368-384 | the loop with `continue`/`break` returns exactly `Available` for the catalog's rooms |
| `RoomCatalog.RoomById` | Code.java:366 | the first room with the id, or absent exactly when no room has it |
| `RoomCatalog.Catalog.ById` | Code.java:366 | the first room of the inventory with the id (`RoomById`); the room found is in the inventory and has the id; absent exactly when no room has it |
| `RoomCatalog.Catalog.SaveAll` | Code.java:359-365 | the inventory is replaced by the given rooms |
| `ReservationStorage.Load` | Code.java:397-407 | a failed read is a malformed-record failure; a read gives at most one record per line |
| `ReservationStorage.LoadFailsOnMalformed` | Code.java:401-404 | a non-blank line that does not decode, anywhere in the file, fails the whole read |
| `ReservationStorage.LoadSuccessDecodesEveryLine` | Code.java:401-404 | after a successful read, every non-blank line of the file decodes |
| `ReservationStorage.LoadSkipsBlank` | Code.java:402 | a blank line (`String.isBlank`, modelled by `IsBlank`) adds nothing to what the file reads as |
| `ReservationStorage.LoadIsDecodedNonBlank` | Code.java:397-407 | the read succeeds exactly when every non-blank line decodes, and then gives the decoded non-blank lines, one record each, in file order |
| `ReservationStorage.ReservationStore.LoadAll` | Code.java:397-407 | the reading loop, which skips blank lines (`IsBlank`) and stops at the first malformed one, returns exactly `Load` of the file |
| `ReservationStorage.LoadFailureExtends` | Code.java:401-404 | once a prefix of the file fails to read, the whole file does |
| `ReservationStorage.LoadIsNormal` | Code.java:397-407 | every record read from the file has no quotes in its text and no empty ids |
| `ReservationStorage.EncodeNotBlank` | Code.java:402 | the line written for a record is never blank, so reading never skips it |
| `ReservationStorage.LoadAppend` | Code.java:444-448 | appending the line of a record adds that record, as reading gives it back, at the end |
| `ReservationStorage.LoadEncodeAll` | Code.java:420-436 | reading a rewritten file gives each record as reading gives it back, in order |
| `ReservationStorage.MaxId` | Code.java:411 | the largest id: carried by some record, and no record has a larger one |
| `ReservationStorage.NextId` | Code.java:411 | 1001 for an empty store, otherwise the largest id plus one; greater than every id while none is the 64-bit maximum |
| `ReservationStorage.NextIdWraps` | Code.java:411 | with a record at the 64-bit maximum, the next id wraps to the 64-bit minimum |
| `ReservationStorage.CreateKeepsIdsIncreasing` | Code.java:409-416 | a record given the next id keeps the ids strictly growing along the file |
| `ReservationStorage.ReservationStore.Create` | Code.java:409-416 | an unreadable file is left alone; otherwise the new booking has the next id and is paid, confirmed, without refund; its line is appended and read back as the last record; growing ids keep growing |
| `ReservationStorage.CancelRecord` | Code.java:425-428 | the cancelled record keeps every field except the status, which becomes cancelled, the payment status, which becomes refunded when a refund id is given, and the refund id, which is set |
| `ReservationStorage.CancelIn` | Code.java:422-433 | every record with the id is cancelled and every other record is untouched, in the same order |
| `ReservationStorage.CancelKeepsIdsIncreasing` | Code.java:418-438 | cancellation keeps ids in place, so growing ids keep growing |
| `ReservationStorage.RewriteForCancel` | Code.java:420-433 | the rewrite loop yields one line per record, with the matching records cancelled, and reports whether any record matched |
| `ReservationStorage.ReservationStore.Cancel` | Code.java:418-438 | an unreadable file or an unknown id fails and leaves the file alone; otherwise the file is rewritten and reads back as the records with the matching ones cancelled |
| `ReservationStorage.FirstWithId` | Code.java:440-442 | the first record with the id, or absent exactly when none has it |
| `ReservationStorage.FirstWithIdUnique` | Code.java:440-442 | with growing ids, the record found is the one with that id |
| `ReservationStorage.ReservationStore.FindById` | Code.java:440-442 | a read failure is passed on; otherwise the first record of the file with the id, if any |
| `Payments.GenTxn` | Code.java:480-482 | a transaction id is never empty and holds neither a quote nor a comma, so it is stored unchanged |
| `Payments.Luhn` | Code.java:471-479 | the reverse loop with its alternation flag computes the Luhn sum and tests it modulo 10 |
| `Payments.IsPlausibleCard` | Code.java:467-470 | a card is plausible exactly when it is sixteen decimal digits that pass the Luhn check |
| `Payments.LuhnCheckDigit` | Code.java:471-479 | every digit string has exactly one check digit that makes it pass |
| `Payments.LuhnDetectsSingleDigitError` | Code.java:471-479 | changing one digit of a passing number makes it fail |
| `Payments.Charge` | Code.java:455-460 | succeeds exactly for a positive amount and a plausible card, with a `PAY` transaction id; otherwise invalid amount, checked first, or card declined, with no id |
| `Payments.RefundPayment` | Code.java:461-466 | succeeds exactly when the original payment id is present and non-empty, with an `RFD` transaction id; otherwise original payment missing, with no id |
| `CancelPolicy.Decide` | Code.java:135-153 | a cancelled booking is rejected; less than two days before check-in it proceeds without refund; otherwise it is rejected exactly when the refund is refused (no non-empty payment id), and with a non-empty payment id it proceeds with the refund's `RFD` transaction id |
| `CancelPolicy.DecideRefunds` | Code.java:140-153 | a refund is issued exactly for a confirmed booking with a payment id, cancelled two or more days ahead |
| `CancelPolicy.HandleCancel` | Code.java:127-156 | an unknown id, a rejection or a read failure leaves the file alone; otherwise the store cancels the booking with the decided refund id and the file reads back with that booking cancelled |
| `Scenario.SeedRooms` | Code.java:226-232 | the five seeded rooms, with distinct ids |
| `Scenario.BackToBackBookable` | Code.java:368-390 | a room held from day 10 to day 15 is offered from day 15 but not from day 14 |
| `Scenario.OfferWhileBooked` | Code.java:368-384 | while room 3 is booked for a stay, the other deluxe room is offered for it and room 3 is not |
| `Scenario.OfferAfterCancel` | Code.java:373-376 | once the booking is cancelled, room 3 is offered again |
| `Scenario.Book` | Code.java:409-416 | booking room 3 on an empty store gives id 1001, total 3 × 3999, paid and confirmed, read back unchanged |
| `Scenario.CancelAhead` | Code.java:127-156 | cancelling that booking ten days ahead refunds it, and the store reads it back cancelled and refunded |

## Left out

- Console input and output, prompts, menus and printed messages are not modelled. `handleBooking`, `handleViewDetails` and the menu loop are console glue around the modelled operations. Only the decision part of the cancel command is modelled, as `CancelPolicy.HandleCancel`.
- Files are not modelled as files. Each store holds its file's content as a field (`lines`, `rooms`). `IOException`, missing files and the bootstrap that creates them are not modelled.
- Concurrency is not modelled: `synchronized` has no counterpart, and the model is single-threaded.
- Dates, the creation time and amounts are integers, written in decimal. The ISO date text of `LocalDate`, `LocalDateTime.parse` and the `double` text of `String.valueOf(double)` are not modelled. A stay is a pair of day numbers.
- `LocalDate.now()`, `LocalDateTime.now()`, `System.currentTimeMillis()` and `Random.nextInt` are parameters (`today`, `now`, `millis`, `random`).
- Payment messages carry the amount as a value instead of formatted rupee text.
- `Room.fromCsv` and `Room.toCsv` are not modelled. Rooms are kept as values in `Catalog.rooms`. Their plain comma join would not round-trip a room number holding a comma.
- `Character.isWhitespace` and the digit test are modelled on ASCII only.
- `ReservationStorage.ReservationStore.Create`: a guest name or transaction id holding a line break stays on one line in the model, so `Create` promises that it reads back. Java's `readAllLines` would split that record into two lines, and every later read would fail. The console reads the guest name with `Scanner.nextLine` (Code.java:107), which never yields a line break.
- A malformed line makes `loadAll` throw. The model returns `Failure(MalformedRecord)` instead.
- `Payments.Luhn`: the Java `int` sum cannot overflow for sixteen digits. For longer strings the sum is modelled as an unbounded integer.
- `ReservationStorage.NextId`: "greater than every existing id" is stated only when no id is `Long.MAX_VALUE`. At that value the Java `long` wraps, which the model reproduces (`ReservationStorage.NextIdWraps`).
- `CsvCodec.SplitJoin` is stated for one or more fields. A stored line always has eleven.
