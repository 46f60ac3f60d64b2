# Campsite reservation engine, modelled in Dafny

This project models the core of a single-campsite booking backend written in
Kotlin with Spring. The campsite can be reserved one night at a time. The
model covers five parts:

- The **reservation engine** (`ReservationService`). *Book* validates its
  inputs, checks the stay is free, generates an identifier of the form
  `lastName_email_suffix` and stores one row per night. *Modify* is a diff: it
  adds the requested nights the booking does not hold yet, refuses if any of
  them is stored by anyone, and deletes the nights no longer requested.
  *Cancel* deletes every row of a booking, but only when each row carries the
  caller's e-mail.
- The **availability engine** (`AvailabilityService`). One query lists the
  free days of a half-open window in ascending order. The other says whether
  a stay window is entirely free.
- The **validation layer** (`InputValidator`, `DateUtil`, `RegexPatterns`).
  It has the first-failing-check-wins order of the stay-window rules, the
  looser availability-window rules, and the `NAME` and `BOOKING_IDENTIFIER`
  patterns. Each pattern is written once as a declarative split and, for
  `NAME`, once as a scanner, with a proof that the two agree.
- The **repository queries** (`ReservationRepository`), as pure functions
  over the sequence of stored rows.
- The **helpers** `User.getIdentifier` and `TestUtils.getSubtractedDate`.

The environment is modelled like this:

- Dates are integers (days since 1970-01-01).
- "Today" is an explicit parameter, and so are the date parser, the e-mail
  validator and the bound of the random suffix. They are bundled in
  `Context.Env`.
- A Kotlin `null` is `None`.
- A thrown `InvalidInputException` is a `Failure` carrying one of the 14
  `ErrorMessage` variants.
- An operation that fails returns no store, so a failed operation leaves the
  store as it was.
- Constants: at most 3 nights per stay, arrival at most 31 days ahead, and
  arrival at least 1 day after today.

The invariant *no two rows share a date* (`NoDoubleBooking`) is shown to be
preserved by Book, Modify and Cancel. A selection of the test cases of the
service and repository test classes is restated as lemmas
(`ServiceScenarios`): the happy paths of booking, modifying, cancelling and
listing, and most of the refused inputs. They hold for every value of
"today", and for every store that satisfies the test's setup.

Three facts about the code that the model follows:

- `validateArrivalDate` checks, in this order: past, too soon, equal dates,
  too far, reversed dates, too long (InputValidator.kt:67-98).
- `bookReservation` validates the date strings, the names and the e-mail, and
  only then the stay window (ReservationService.kt:34-40).
- The validator refers to `MAX_DURATION_STAY`, but the constants enum
  declares `MAX_ALLOWED_DURATION_STAY(3)`. The model uses 3.

An observation that follows from the proofs
(`ServiceProperties.UnderscoreEmailBookingCannotBeCancelled`): the local part
of `BOOKING_IDENTIFIER` excludes `_`. So a guest whose e-mail has `_` before
the `@` receives an identifier that Modify and Cancel reject as malformed,
whenever the e-mail validator accepts that e-mail. The program's own
repository test treats such an address as valid: it stores a booking under
the e-mail `suburban_daredevil@email.com` (ReservationRepositoryTests.kt:31)
and passes that e-mail to `modifyReservation` (ReservationRepositoryTests.kt:54),
which validates it first. Whether the validator library accepts such
addresses is outside the model, so this is reported as a consequence, not as
a finding.

## Model

| member | source | states |
|---|---|---|
| DateUtil.IsValidDateString | src/main/kotlin/temper/utils/DateUtil.kt:11-21 | a date string is valid exactly when the parser returns a date for it |
| DateUtil.IsArrivalDateInThePast | src/main/kotlin/temper/utils/DateUtil.kt:23-26 | an arrival is in the past when it is strictly before today |
| DateUtil.IsArrivalDateBeforeMinimum | src/main/kotlin/temper/utils/DateUtil.kt:28-31 | an arrival is before the minimum when it is strictly before today plus the one-day buffer |
| DateUtil.IsArrivalDateTooFar | src/main/kotlin/temper/utils/DateUtil.kt:33-36 | an arrival is too far when it is strictly after today plus 31 days |
| DateUtil.IsArrivalDateAfterDepartureDate | src/main/kotlin/temper/utils/DateUtil.kt:38-41 | the arrival is strictly after the departure |
| DateUtil.PastImpliesBeforeMinimum | src/main/kotlin/temper/utils/DateUtil.kt:23-31 | an arrival in the past is also before the one-day minimum, so the earlier check only decides which error is reported |
| DateUtil.Boundaries | src/main/kotlin/temper/utils/DateUtil.kt:23-41 | today is too soon but not past; today + 1 is not too soon; today + 31 is allowed and today + 32 is too far; equal dates are not "after" each other |
| DateUtil.DatesUntil | src/main/kotlin/temper/service/AvailabilityService.kt:52-59 | the day list of `[start, end)` has `end - start` days, the i-th being `start + i` |
| DateUtil.DatesUntilMembership | src/main/kotlin/temper/service/AvailabilityService.kt:52-59 | a day is in the list exactly when `start <= x < end` |
| DateUtil.OtherLetterODatesAreNotDates | src/main/kotlin/temper/utils/DateUtil.kt:11-21 | for any parser whose accepted strings end in `-MM-DD`, neither "1903-O9-o2" nor "1970-01-O1" is a valid date |
| DateUtil.LetterOIsNotADate | src/main/kotlin/temper/utils/DateUtil.kt:11-21 | for any parser whose accepted strings end in `-MM-DD`, "1970-O1-O1" is not a valid date |
| Chars.NatToDecimal | src/main/kotlin/temper/service/ReservationService.kt:113 | the printed suffix is a non-empty string of digits with no leading zero, and zero prints as "0" |
| Chars.DecimalRoundTrip | src/main/kotlin/temper/service/ReservationService.kt:113 | reading back the printed suffix gives the suffix |
| Chars.DecimalLength | src/main/kotlin/temper/constants/RegexPatterns.kt:6 | a suffix below 10^k prints with at most k digits, which is what `[0-9]{1,7}` needs |
| RegexPatterns.NameSpec | src/main/kotlin/temper/constants/RegexPatterns.kt:5 | a full match of NAME: letters, then at most two spaces, then at least one letter |
| RegexPatterns.IsName | src/main/kotlin/temper/constants/RegexPatterns.kt:5 | the scanner for NAME: the longest letter run, the space run after it, then letters to the end |
| RegexPatterns.IsBookingIdentifier | src/main/kotlin/temper/constants/RegexPatterns.kt:6 | a full match of BOOKING_IDENTIFIER: a NAME, `_`, an e-mail part, `_`, one to seven digits |
| RegexPatterns.IsNameCorrect | src/main/kotlin/temper/constants/RegexPatterns.kt:5 | the scanner accepts a string exactly when it splits into letters, at most two spaces, and one or more letters |
| RegexPatterns.NameHasNoUnderscore | src/main/kotlin/temper/constants/RegexPatterns.kt:5 | every character of an accepted name is a letter or a space, never `_` |
| RegexPatterns.NameEndsInLetter | src/main/kotlin/temper/constants/RegexPatterns.kt:5 | an accepted name is non-empty and ends in a letter, so a trailing space is rejected |
| RegexPatterns.NameRejectsThreeSpaces | src/main/kotlin/temper/constants/RegexPatterns.kt:5 | three spaces in a row are never accepted |
| RegexPatterns.NameRejectsTwoSpaceRuns | src/main/kotlin/temper/constants/RegexPatterns.kt:5 | two spaces with a letter between them (two space runs) are never accepted |
| RegexPatterns.SampleNamesRejected | src/main/kotlin/temper/constants/RegexPatterns.kt:5 | "", "Lee ", "111111", "Jo   Ann" and "Jo Ann Lee" are rejected |
| RegexPatterns.EmailPartUnderscoreAfterAt | src/main/kotlin/temper/constants/RegexPatterns.kt:6 | in the e-mail part every `_` comes after the single `@` |
| RegexPatterns.IdentifierEndsInSuffix | src/main/kotlin/temper/constants/RegexPatterns.kt:6 | every accepted identifier ends in `_` followed by one to seven digits |
| RegexPatterns.EightTrailingDigitsRejected | src/main/kotlin/temper/constants/RegexPatterns.kt:6 | a string ending in eight digits is never an identifier |
| RegexPatterns.IdentifierOfParts | src/main/kotlin/temper/constants/RegexPatterns.kt:6 | a name, `_`, an e-mail part, `_` and one to seven digits always form an identifier |
| RegexPatterns.SampleIdentifierAccepted | src/test/kotlin/temper/service/ReservationServiceTest.kt:32 | "dedicated_wham@email.com_1234567" is an identifier |
| RegexPatterns.FirstUnderscoreEndsName | src/main/kotlin/temper/constants/RegexPatterns.kt:6 | the first `_` of an identifier ends the name, and the next character starts the local part |
| RegexPatterns.DoubledUnderscoreRejected | src/test/kotlin/temper/service/ReservationServiceTest.kt:441-448 | "nope__someEmail@email.com__1234567" is not an identifier |
| User.Identifier | src/main/kotlin/temper/entity/User.kt:10-13 | the identifier is the last name, then `_`, then the e-mail |
| User.IdentifierIgnoresFirstName | src/main/kotlin/temper/entity/User.kt:8-13 | changing the first name does not change the identifier |
| User.IdentifierDeterminesNameAndEmail | src/main/kotlin/temper/entity/User.kt:10-13 | for last names without `_`, equal identifiers mean equal last names and equal e-mails |
| ReservationRepository.DatesOf | src/main/kotlin/temper/service/AvailabilityService.kt:49-50 | the mapped dates keep row order, and a date is listed exactly when some row carries it |
| ReservationRepository.ExistsByBookingIdentifier | src/main/kotlin/temper/repository/ReservationRepository.kt:15 | true exactly when some stored row carries the identifier |
| ReservationRepository.FindByBookingIdentifier | src/main/kotlin/temper/repository/ReservationRepository.kt:17 | returns each stored row of the identifier as often as it is stored, and no other row |
| ReservationRepository.ExistsByReservationDateIn | src/main/kotlin/temper/repository/ReservationRepository.kt:13 | true exactly when some stored row's date is listed |
| ReservationRepository.FindByReservationDateIn | src/main/kotlin/temper/repository/ReservationRepository.kt:19 | returns exactly the stored rows whose date is listed, with their multiplicities |
| ReservationRepository.DeleteByReservationDateIn | src/main/kotlin/temper/repository/ReservationRepository.kt:11 | removes every row whose date is listed, whoever holds it, and keeps every other row with its multiplicity |
| ReservationRepository.DeleteAll | src/main/kotlin/temper/service/ReservationService.kt:107 | removes the stored rows equal to a listed row and keeps every other row |
| ReservationRepository.ExistsIffFindNonEmpty | src/main/kotlin/temper/repository/ReservationRepository.kt:15-17 | the exists query and the find query by identifier agree |
| ReservationRepository.ExistsIffHoldsNights | src/main/kotlin/temper/repository/ReservationRepository.kt:15 | an identifier exists exactly when it holds at least one night |
| ReservationRepository.ExistsIffFindNonEmptyByDates | src/main/kotlin/temper/repository/ReservationRepository.kt:13-19 | the exists query and the find query by dates agree |
| ReservationRepository.FilterKeepsNoDoubleBooking | src/main/kotlin/temper/repository/ReservationRepository.kt:11 | removing rows never creates a double booking |
| ReservationRepository.SaveAll | src/main/kotlin/temper/service/ReservationService.kt:127 | saving appends the rows: the stored rows stay in place, in front |
| ReservationRepository.SaveAllCounts | src/main/kotlin/temper/service/ReservationService.kt:127 | after saving, each row occurs as often as it was stored plus as often as it was saved |
| ReservationRepository.DeleteAllKeepsNoDoubleBooking | src/main/kotlin/temper/service/ReservationService.kt:107 | `deleteAll` never creates a double booking |
| ReservationRepository.SaveAllKeepsNoDoubleBooking | src/main/kotlin/temper/service/ReservationService.kt:127 | appending rows on free, pairwise distinct nights keeps the store free of double bookings |
| TestUtils.GetSubtractedDate | src/main/kotlin/temper/utils/TestUtils.kt:9-12 | a date is in the result exactly when it is in the first list and not in the second |
| TestUtils.SubtractedDateSize | src/main/kotlin/temper/utils/TestUtils.kt:9-11 | duplicates collapse: the result is never larger than the first list |
| TestUtils.SubtractedDateEmptyWhenContained | src/main/kotlin/temper/utils/TestUtils.kt:9-11 | the result is empty when every element of the first list is in the second |
| InputValidator.ValidateEmailString | src/main/kotlin/temper/utils/InputValidator.kt:17-23 | a null or rejected e-mail gives MALFORMED_EMAIL, and anything else passes |
| InputValidator.ValidateBookingIdentifier | src/main/kotlin/temper/utils/InputValidator.kt:25-31 | passes exactly for a non-null full match of BOOKING_IDENTIFIER; otherwise MALFORMED_BOOKING_IDENTIFIER |
| InputValidator.ValidateNameStrings | src/main/kotlin/temper/utils/InputValidator.kt:33-44 | passes exactly when both names match NAME; the first name is judged first; null is malformed |
| InputValidator.ValidateStayDateString | src/main/kotlin/temper/utils/InputValidator.kt:46-57 | a null or unparsable arrival gives MALFORMED_ARRIVAL_DATE before the departure is looked at |
| InputValidator.ValidateDateString | src/main/kotlin/temper/utils/InputValidator.kt:59-65 | passes exactly when the string parses; otherwise MALFORMED_DATE_PARAMETER |
| InputValidator.ValidateArrivalDate | src/main/kotlin/temper/utils/InputValidator.kt:67-98 | passes exactly when `today+1 <= a <= today+31` and `a < d <= a+3`; each of the five errors is characterised by its own condition (equal and reversed dates share DEPARTURE_DATE_TOO_SOON) |
| InputValidator.ValidateAvailabilityDates | src/main/kotlin/temper/utils/InputValidator.kt:100-111 | passes exactly when `today <= s <= e`; no horizon, buffer or length check |
| InputValidator.StayWindowIsAvailabilityWindow | src/main/kotlin/temper/utils/InputValidator.kt:67-111 | every stay window that passes also passes as an availability window |
| AvailabilityService.GetTakenDates | src/main/kotlin/temper/service/AvailabilityService.kt:49-50 | a day is taken exactly when it is in the window and some row carries it |
| AvailabilityService.GetFreeDates | src/main/kotlin/temper/service/AvailabilityService.kt:47 | the free days are ascending and are exactly the window's days that are not taken |
| AvailabilityService.ListAvailableDates | src/main/kotlin/temper/service/AvailabilityService.kt:16-31 | a bad start, then a bad end, give MALFORMED_DATE_PARAMETER; then success exactly when `today <= s <= e`; the result is ascending and holds exactly the unreserved days of `[s, e)` |
| AvailabilityService.IsDateRangeAvailable | src/main/kotlin/temper/service/AvailabilityService.kt:33-45 | after the date strings, the full stay-window rules decide failure; on success the answer is true exactly when no night of `[s, e)` is reserved |
| AvailabilityService.ComplementLaw | src/main/kotlin/temper/service/AvailabilityService.kt:47-50 | free and taken days are disjoint and together make up the window |
| AvailabilityService.FreeDatesAreUnreservedDays | src/main/kotlin/temper/service/AvailabilityService.kt:16-31 | the free list, as a set, is the window minus the reserved days |
| AvailabilityService.EmptyWindowListsNothing | src/main/kotlin/temper/service/AvailabilityService.kt:16-31 | a window that starts and ends on the same non-past day is an empty list, not an error |
| ReservationService.GenerateBookingIdentifier | src/main/kotlin/temper/service/ReservationService.kt:110-114 | the identifier is the user identifier, `_`, then the suffix in canonical decimal: digits with no leading zero whose value is the suffix |
| ReservationService.BuildReservationList | src/main/kotlin/temper/service/ReservationService.kt:116-125 | one row per date, in order, each with the given identifier and e-mail |
| ReservationService.BuildReservationListCount | src/main/kotlin/temper/service/ReservationService.kt:116-125 | for distinct dates, each promised row occurs exactly once and no other row occurs |
| ReservationService.BuildReservationListCounts | src/main/kotlin/temper/service/ReservationService.kt:116-125 | for distinct dates, the list has no double booking and holds each promised row once |
| ReservationService.IsValidReservation | src/main/kotlin/temper/service/ReservationService.kt:129-135 | passes exactly when the identifier holds at least one night; otherwise RESERVATION_DOES_NOT_EXIST |
| ReservationService.CheckOwnership | src/main/kotlin/temper/service/ReservationService.kt:100-105 | passes exactly when every found row carries the caller's e-mail; otherwise RESERVATION_DOES_NOT_EXIST |
| ReservationService.Book | src/main/kotlin/temper/service/ReservationService.kt:26-53 | errors in order: arrival, departure, first name, last name, e-mail, stay window; then success exactly when every night is free (else UNAVAILABLE_RESERVATION_DATES); a success appends one row per night of `[a, d)`, in order, under `lastName_email_suffix` with the caller's e-mail, and keeps no double booking |
| ReservationService.ReserveStay | src/main/kotlin/temper/service/ReservationService.kt:42-52 | after validation, success exactly when the stay is free; the rows appended and the identifier returned |
| ReservationService.SaveNights | src/main/kotlin/temper/service/ReservationService.kt:49-51 | the store keeps its rows as a prefix and gains the rows of `[a, d)` in order; free nights keep no double booking |
| ReservationService.SaveNightsKeepsNoDoubleBooking | src/main/kotlin/temper/service/ReservationService.kt:49-51 | saving the rows of free nights keeps the store free of double bookings |
| ReservationService.Modify | src/main/kotlin/temper/service/ReservationService.kt:56-88 | errors in order: e-mail, identifier, arrival, departure, stay window, unknown identifier; then success exactly when every requested night the booking lacks is unreserved (else UNAVAILABLE_RESERVATION_DATES); a success is the diff, and keeps no double booking |
| ReservationService.NewDates | src/main/kotlin/temper/service/ReservationService.kt:72-76 | the nights to add are ascending and are exactly the requested nights the booking does not hold |
| ReservationService.OutdatedDates | src/main/kotlin/temper/service/ReservationService.kt:75-86 | the nights to delete are exactly the booking's nights that are no longer requested |
| ReservationService.ReplaceNights | src/main/kotlin/temper/service/ReservationService.kt:72-87 | refuses with UNAVAILABLE_RESERVATION_DATES exactly when a night to add is stored by anyone; otherwise applies the diff |
| ReservationService.ApplyDiff | src/main/kotlin/temper/service/ReservationService.kt:83-87 | every row's count afterwards is its count before, minus the booking's outdated rows, plus one for each added night of the caller |
| ReservationService.DiffCounts | src/main/kotlin/temper/service/ReservationService.kt:83-87 | the save-then-delete sequence has exactly the expected count for every row |
| ReservationService.DiffKeepsNoDoubleBooking | src/main/kotlin/temper/service/ReservationService.kt:78-87 | the diff keeps the store free of double bookings when the nights it adds are free |
| ReservationService.Cancel | src/main/kotlin/temper/service/ReservationService.kt:91-108 | errors in order: e-mail, identifier; then success exactly when the identifier holds a night and every one of its rows carries the caller's e-mail (else RESERVATION_DOES_NOT_EXIST); a success removes exactly the identifier's rows |
| ServiceProperties.GeneratedIdentifierAccepted | src/main/kotlin/temper/service/ReservationService.kt:110-114 | for a valid last name, an e-mail matching the e-mail part and a suffix below 10^7, the generated identifier matches BOOKING_IDENTIFIER |
| ServiceProperties.UnderscoreInLocalPartBreaksIdentifier | src/main/kotlin/temper/constants/RegexPatterns.kt:6 | no identifier can be built from an e-mail that has `_` before its `@` |
| ServiceProperties.DeleteOwnRowsRestores | src/main/kotlin/temper/service/ReservationService.kt:98-107 | deleting the found rows of an identifier the store did not hold, after appending rows under it, restores the store |
| ServiceProperties.CancelAppendedRows | src/main/kotlin/temper/service/ReservationService.kt:91-108 | cancelling appended rows of a fresh identifier with their e-mail restores the store |
| ServiceProperties.BookAppendsOwnRows | src/main/kotlin/temper/service/ReservationService.kt:47-51 | a successful booking appends rows that all carry the new identifier and the caller's e-mail |
| ServiceProperties.BookThenCancelRestoresStore | src/main/kotlin/temper/service/ReservationService.kt:26-108 | cancelling a fresh booking with the booker's e-mail and the returned identifier gives back the store as it was before the booking |
| ServiceProperties.UnderscoreEmailBookingCannotBeCancelled | src/main/kotlin/temper/service/ReservationService.kt:26-108 | a booking made with an e-mail that has `_` before the `@` can be neither modified nor cancelled: both report MALFORMED_BOOKING_IDENTIFIER |
| ServiceProperties.ModifySucceeds | src/main/kotlin/temper/service/ReservationService.kt:56-88 | a well-formed modify of an existing booking whose added nights are free succeeds with the diff of the parsed stay |
| ServiceProperties.ModifyRefusedWhenTaken | src/main/kotlin/temper/service/ReservationService.kt:56-81 | a well-formed modify of an existing booking is refused with UNAVAILABLE_RESERVATION_DATES when any night to add is stored by anyone |
| ServiceProperties.DiffHoldsRequestedNights | src/main/kotlin/temper/service/ReservationService.kt:72-87 | after the diff the identifier holds a night exactly when it was requested |
| ServiceProperties.ModifyHoldsRequestedNights | src/main/kotlin/temper/service/ReservationService.kt:56-88 | after a successful modify the booking's nights are exactly `[a, d)` |
| ServiceProperties.ModifyKeepsOtherBookings | src/main/kotlin/temper/service/ReservationService.kt:78-87 | without double bookings, a modify leaves every row of another booking in place |
| ServiceProperties.ModifyAddsOnlyOwnRows | src/main/kotlin/temper/service/ReservationService.kt:83-84 | every row after a modify that does not carry the identifier was already stored |
| ServiceProperties.ModifySoleBooking | src/main/kotlin/temper/service/ReservationService.kt:56-88 | when the store holds only the modified booking, the reserved nights afterwards are exactly `[a, d)` |
| ServiceProperties.ModifyByStrangerBlocksCancel | src/main/kotlin/temper/service/ReservationService.kt:56-108 | modify checks no ownership: a stranger who adds a night to a booking leaves a row with another e-mail, and the owner's cancel then fails with RESERVATION_DOES_NOT_EXIST |
| ServiceScenarios.BookTwoNights | src/test/kotlin/temper/service/ReservationServiceTest.kt:35-46 | booking today+1 to today+3 succeeds, adds two rows, and the identifier starts with `Suburban_Daredevil@email.com_` |
| ServiceScenarios.BookWithDigitLastName | src/test/kotlin/temper/service/ReservationServiceTest.kt:90-97 | last name "111111" gives MALFORMED_LAST_NAME whatever the e-mail |
| ServiceScenarios.BookWithLetterOArrival | src/test/kotlin/temper/service/ReservationServiceTest.kt:110-117 | arrival "1970-O1-O1" gives MALFORMED_ARRIVAL_DATE before anything else is checked |
| ServiceScenarios.BookWithNullEmail | src/test/kotlin/temper/service/ReservationServiceTest.kt:59-67 | a missing e-mail gives MALFORMED_EMAIL |
| ServiceScenarios.BookWithInvalidEmail | src/test/kotlin/temper/service/ReservationServiceTest.kt:69-77 | an e-mail the validator rejects gives MALFORMED_EMAIL |
| ServiceScenarios.BookWithNullFirstName | src/test/kotlin/temper/service/ReservationServiceTest.kt:79-87 | a missing first name gives MALFORMED_FIRST_NAME whatever the e-mail |
| ServiceScenarios.BookWithNullDeparture | src/test/kotlin/temper/service/ReservationServiceTest.kt:99-107 | a missing departure gives MALFORMED_DEPARTURE_DATE whatever the names and e-mail |
| ServiceScenarios.BookRefusedWindows | src/test/kotlin/temper/service/ReservationServiceTest.kt:119-173 | an arrival in the past, today, 32 days ahead, after the departure, or a five-night stay give DATE_IN_THE_PAST, DATE_TOO_SOON, DATE_TOO_FAR, DEPARTURE_DATE_TOO_SOON and RESERVATION_LIMIT_REACHED |
| ServiceScenarios.BookUnavailable | src/test/kotlin/temper/service/ReservationServiceTest.kt:48-57 | a well-formed stay with a taken night gives UNAVAILABLE_RESERVATION_DATES |
| ServiceScenarios.SharedDatesDiff | src/test/kotlin/temper/service/ReservationServiceTest.kt:177-210 | the diff from nights +1, +2 to `[t+2, t+5)` is nights +2, +3, +4 |
| ServiceScenarios.ModifySharedDates | src/test/kotlin/temper/service/ReservationServiceTest.kt:177-210 | moving a stay from nights +1, +2 to +2, +3, +4 succeeds: +2 is kept, +3 and +4 are added, +1 is dropped |
| ServiceScenarios.ModifySeparatedDates | src/test/kotlin/temper/service/ReservationServiceTest.kt:212-246 | moving a one-night booking at +1 to `[t+4, t+7)` succeeds, and afterwards exactly those three nights are reserved |
| ServiceScenarios.ModifyIntoTakenNights | src/test/kotlin/temper/service/ReservationServiceTest.kt:248-282 | moving a one-night booking to `[t+2, t+5)` while another booking holds one of those nights gives UNAVAILABLE_RESERVATION_DATES |
| ServiceScenarios.ModifyUnknownBooking | src/test/kotlin/temper/service/ReservationServiceTest.kt:284-295 | an identifier with no rows gives RESERVATION_DOES_NOT_EXIST |
| ServiceScenarios.ModifyMalformedIdentity | src/test/kotlin/temper/service/ReservationServiceTest.kt:317-355 | a missing or rejected e-mail gives MALFORMED_EMAIL, whatever the dates; with a good e-mail, a missing identifier gives MALFORMED_BOOKING_IDENTIFIER |
| ServiceScenarios.ModifyWithNullArrival | src/test/kotlin/temper/service/ReservationServiceTest.kt:297-305 | with a good e-mail and identifier, a missing arrival gives MALFORMED_ARRIVAL_DATE whatever the departure |
| ServiceScenarios.ModifyWithLetterODeparture | src/test/kotlin/temper/service/ReservationServiceTest.kt:307-315 | the departure "1903-O9-o2" gives MALFORMED_DEPARTURE_DATE under any ISO parser |
| ServiceScenarios.CancelWithWrongEmail | src/test/kotlin/temper/service/ReservationServiceTest.kt:373-386 | the owner's three rows cannot be cancelled with "yoko@aol.com": RESERVATION_DOES_NOT_EXIST |
| ServiceScenarios.CancelBooking | src/test/kotlin/temper/service/ReservationServiceTest.kt:358-370 | the owner cancels their three rows and nothing is left |
| ServiceScenarios.CancelUnknownBooking | src/test/kotlin/temper/service/ReservationServiceTest.kt:387-397 | an identifier with no rows gives RESERVATION_DOES_NOT_EXIST |
| ServiceScenarios.CancelMalformedInputs | src/test/kotlin/temper/service/ReservationServiceTest.kt:410-448 | a missing or rejected e-mail gives MALFORMED_EMAIL; a missing or doubled-underscore identifier gives MALFORMED_BOOKING_IDENTIFIER |
| ServiceScenarios.NoFreeSpots | src/test/kotlin/temper/service/AvailabilityServiceTest.kt:30-42 | with nights +1 to +3 taken, the window `[t+1, t+4)` lists nothing and is not available |
| ServiceScenarios.OneFreeSpot | src/test/kotlin/temper/service/AvailabilityServiceTest.kt:46-57 | with nights +1 and +2 taken, the only free day is +3, and the window is not available |
| ServiceScenarios.AscendingWindow | src/main/kotlin/temper/service/AvailabilityService.kt:47 | an ascending list that holds exactly the days of `[lo, hi)` is that day list |
| ServiceScenarios.UnreservedWindowListed | src/main/kotlin/temper/service/AvailabilityService.kt:16-31 | when no night of a valid window is reserved, the free list is the whole window |
| ServiceScenarios.ListRefusedWindows | src/test/kotlin/temper/service/AvailabilityServiceTest.kt:70-108 | a missing date gives MALFORMED_DATE_PARAMETER, a start yesterday gives DATE_IN_THE_PAST, an end before the start gives DEPARTURE_DATE_TOO_SOON |
| ServiceScenarios.ListWithLetterOEnd | src/test/kotlin/temper/service/AvailabilityServiceTest.kt:80-88 | the end date "1970-01-O1" gives MALFORMED_DATE_PARAMETER under any ISO parser |
| ServiceScenarios.AllFree | src/test/kotlin/temper/service/AvailabilityServiceTest.kt:60-68 | with nothing stored, the free list of `[t+1, t+4)` is `[t+1, t+2, t+3]` |
| ServiceScenarios.AllAvailable | src/test/kotlin/temper/service/AvailabilityServiceTest.kt:138-145 | with nothing stored, the stay `[t+1, t+4)` is available |
| ServiceScenarios.ModifyFreesToday | src/test/kotlin/temper/repository/ReservationRepositoryTests.kt:51-56 | moving a stay of nights today to today+3 to `[today+2, today+4)` leaves no row on today |

## Left out

- HTTP controllers, Gson encoding and logging: plumbing around the services.
- The e-mail validator library is an uninterpreted predicate (`Env.isValidEmail`), and `LocalDate.parse` is an uninterpreted partial function (`Env.parseDate`). No claim is made about java.time's ISO grammar. The only assumption about the parser, `DateUtil.ParserRespectsIsoShape` (accepted strings end in `-MM-DD`), is a precondition of `DateUtil.LetterOIsNotADate` and of the letter-O scenarios. The scenarios with a rejected e-mail take the validator's verdict on that e-mail as a precondition.
- The clock: `LocalDate.now()` is the parameter `today`.
- Randomness: the suffix drawn by `ThreadLocalRandom.nextInt(0, BOOKING_ID_SUFFIX)` is a parameter of `Book`. The library's contract becomes the precondition `suffix < bookingIdSuffixBound`. The value of `BOOKING_ID_SUFFIX` is not part of this model.
- ServiceProperties.GeneratedIdentifierAccepted: needs the suffix below 10^7 and the e-mail matching the e-mail part of the pattern, because neither the suffix bound nor the e-mail validator is known.
- Spring transactions, generated row ids and concurrency. Each operation is one atomic step: it returns either an error, with the store untouched, or the new store. A fault raised after the insert (the rollback test) is not modelled. Atomicity holds by construction, because a `Failure` carries no store.
- The message texts of `ErrorMessages.kt`: only the variant matters.
- `deleteByReservationDateIn` returns a row count, which the services ignore. The model returns only the new store.
- The store is a sequence in insertion order. The database's row order is not part of the model. Properties about contents are stated on multisets or on membership.
- `getSubtractedDate` returns an insertion-ordered set in Kotlin. The model returns a mathematical set, because its only caller uses it as a set of dates to delete.
- `AvailabilityService.ListAvailableDates` and `IsDateRangeAvailable` return no store, so they cannot change the reservations. No separate lemma states this.
- The controller-level default parameters of the availability endpoint.

