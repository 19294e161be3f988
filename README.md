# Game-booking core, modelled in Dafny

Game-booking is a Next.js front end for a gaming lounge. Customers pick a device type, then a time slot, and book a session; administrators watch revenue and sessions and switch devices between online and maintenance. All data lives in an in-memory store inside a React context. This project models the logic beneath the pages and proves properties of it:

- the string helpers of `lib/security.ts`: escaping, sanitising, tag stripping, the safety test, masking of e-mail addresses, phone numbers and card numbers, and file validation;
- the sliding-window rate limiter, as a class over a map of timestamps;
- the store of `context/MockDataContext.tsx`, as a class with three sequence fields and its five update methods;
- the zod schemas of `lib/validations.ts`, restated as predicates and parse functions;
- the values the pages derive from the store: time slots and their 12-hour labels, the upcoming/history tabs, the admin device toggle, genre grouping, per-type availability cards, and the admin statistics.

Conventions:

- A JavaScript string is a `seq<char>`. A `char` is a Unicode scalar value, while JavaScript counts UTF-16 code units, so the two agree only on strings without characters above U+FFFF (see "## Left out").
- A JavaScript number is an `int` where the code counts, compares or reads an hour, and a `real` for prices. The integers are exact; JavaScript's are doubles, and for `formatTime` that matters only beyond the two-digit hours the page passes (see `TimeSlots.FormatTime` under "## Left out").
- `Date.now()` and the current ISO date string are parameters.
- Regular expressions with the `g` flag become explicit left-to-right scans. The `i` flag becomes ASCII case folding, which is what a non-Unicode regular expression does on these ASCII patterns.
- `\s` and `trim()` use the full JavaScript whitespace set (`Text.IsJsWhitespace`). The regular-expression `.` excludes the four line terminators (`Text.IsLineTerminator`).
- `parseInt` returning `NaN` is `None`.
- `%` is JavaScript's truncating remainder (`TimeSlots.JsRemainder`).
- A template literal that renders a missing value prints `undefined`.

Module layout:

- Each core file has its own module: `Security`, `MockData`, `Validations`, `TimeSlots`, `BookingList`, `AdminDevices`, `GamesPage`, `BookPage`, `AdminOverview`.
- `Text` holds the JavaScript string built-ins the core relies on: `split`, `join`, `trim`, `toLowerCase` on ASCII, decimal rendering and `parseInt`.
- `Wrappers` holds `Option`.

Where the code and its comments or its evident purpose differ, the model follows the code:

- `maskPhone` masks short numbers with `.replace(/./g, '*')`. That keeps line terminators, so "all stars" holds only for numbers without them.
- `maskEmail` renders `undefined` when there is no `@` or when the local part is empty.
- In `app/admin/devices/page.tsx` the toggle button of an `Online` device is labelled `Set Offline`, but pressing it sets `Maintenance` (`AdminDevices.OfflineLabelSetsMaintenance`).
- The register password rule has no upper length bound, while login refuses passwords over 100 characters (`Validations.RegisteredPasswordCanBeRefusedAtLogin`).
- The durations stored with the initial bookings (`2h`, `1h`) are not values the booking schema accepts (`Validations.InitialDurationsNotAccepted`).

## Model

| member | source | states |
|---|---|---|
| Text.Split | app/book/page.tsx:39-40 | `split` with a non-empty separator gives at least one piece |
| Text.JoinSplit | app/book/page.tsx:40 | joining the pieces of a split with the same separator gives the original string back |
| Text.SplitPiecesAvoidSeparator | app/book/page.tsx:40 | no piece of a split contains the separator |
| Text.SplitAtFirst | app/book/page.tsx:39 | a one-character split cuts at the first occurrence: the first piece is everything before it |
| Text.SplitNone | app/book/page.tsx:39-40 | without an occurrence of the separator the only piece is the whole string |
| Text.Trim | lib/security.ts:13 | `trim()` leaves no whitespace at either end and never lengthens the string |
| Text.TrimCutsOnlyWhitespace | lib/security.ts:13 | the trimmed string is a contiguous piece of the input, and only whitespace is cut off on either side |
| Text.TrimDrawnFrom | lib/security.ts:13 | every character of the trimmed string occurs in the input, and it is no longer |
| Text.TrimNoop | lib/security.ts:13 | a string with no whitespace at either end is its own trim |
| Text.LowerAsciiString | app/book/page.tsx:38 | lower-casing keeps the length and lower-cases exactly the ASCII capitals |
| Text.NatToDecimal | components/booking/TimeSlotGrid.tsx:13 | the decimal rendering is a non-empty run of digits with no leading zero, one digit exactly below 10 |
| Text.DigitsValueOfDecimal | components/booking/TimeSlotGrid.tsx:18 | reading a rendered number back gives the number |
| Text.NatToDecimalInjective | context/MockDataContext.tsx:126 | different numbers render differently |
| Text.ParseInt | components/booking/TimeSlotGrid.tsx:18 | for a string without a `0x` or `0X` prefix, `parseInt` is NaN exactly when, after leading whitespace and an optional sign, no digit follows |
| Text.ParseIntOfDecimal | components/booking/TimeSlotGrid.tsx:17-18 | `parseInt` reads back every rendered non-negative number followed by a non-digit |
| Text.ParseIntOfDigitStart | components/booking/TimeSlotGrid.tsx:18 | a string that starts with a digit is read as the value of its leading run of digits |
| Text.TrimStartKeeps | components/booking/TimeSlotGrid.tsx:18 | skipping leading whitespace keeps a string that does not start with whitespace |
| Security.EscapeChar | lib/security.ts:27-34 | a character outside the six special ones is kept; a special one becomes an entity starting with `&` of at least four characters, which DecodeEscapedChar reads back as that character |
| Security.DecodeEscapedChar | lib/security.ts:27-34 | decoding the entity of any character, followed by any text, gives that character followed by the decoding of the text |
| Security.EscapeHtml | lib/security.ts:26-36 | the output is at least as long as the input and holds no raw `<`, `>`, `"`, `'` or `/` |
| Security.EscapedAmpersandsStartEntities | lib/security.ts:26-36 | every `&` in the escaped output begins one of the six entities |
| Security.EscapeHtmlRoundTrip | lib/security.ts:26-36 | decoding the six entities in the escaped output gives the input back, so nothing else is changed |
| Security.RemoveAngleBrackets | lib/security.ts:10 | every character of the result occurs in the input and the result is no longer, and no `<` or `>` is left |
| Security.RemoveProtocol | lib/security.ts:11 | every character of the result occurs in the input and the result is no longer |
| Security.RemoveHandlers | lib/security.ts:12 | every character of the result occurs in the input and the result is no longer |
| Security.RemoveProtocolShrinks | lib/security.ts:11 | when `javascript:` occurs in any case, the pass deletes something |
| Security.RemoveProtocolNoop | lib/security.ts:11 | when `javascript:` does not occur, the pass changes nothing |
| Security.RemoveHandlersShrinks | lib/security.ts:12 | when a handler attribute occurs, the pass deletes something |
| Security.RemoveHandlersNoop | lib/security.ts:12 | without a handler attribute, the pass changes nothing |
| Security.SanitizeString | lib/security.ts:8-14 | the output holds no `<` or `>`, has no whitespace at either end and is no longer than the input |
| Security.TrimKeepsAbsent | lib/security.ts:13 | a character missing before the final trim is missing after it |
| Security.SafeWithoutMarkupCharacters | lib/security.ts:128-138 | a string with none of `<`, `:` and `=` passes the safety test |
| Security.UpperCaseScriptIsUnsafe | lib/security.ts:128-138 | the safety test ignores case: `<SCRIPT>` is refused |
| Security.SafeWithoutTagsOrRemnants | lib/security.ts:128-138 | a string with no `<`, no `javascript:` and no `on…=` passes the safety test |
| Security.IsSafeString | lib/security.ts:128-138 | isSafeString itself, the six case-insensitive patterns; stated by SafeWithoutMarkupCharacters, SafeWithoutTagsOrRemnants and UpperCaseScriptIsUnsafe |
| Security.SanitizeStringCanRebuildProtocol | lib/security.ts:8-14 | as written, sanitising `javajavascript:script:` gives `javascript:`, which the safety test refuses |
| Security.RemoveUntilStable | lib/security.ts:11-12 | repeating both removals until stable leaves neither pattern; every character of the result occurs in the input and the result is no longer |
| Security.SanitizeStringStable | lib/security.ts:8-14 | the corrected sanitiser keeps the shape guarantees of the original |
| Security.SanitizeStringStableIsSafe | lib/security.ts:8-14 | the corrected sanitiser's output always passes the safety test |
| Security.StripHtml | lib/security.ts:19-21 | every character of the result occurs in the input and the result is no longer, and no `<` in it is followed anywhere later by a `>` |
| Security.StripHtmlNoop | lib/security.ts:19-21 | text without `<` passes through unchanged |
| Security.SplitEmail | lib/security.ts:87 | the destructured local part and domain of `l@d…` are `l` and `d` |
| Security.MaskEmailShortLocal | lib/security.ts:86-90 | a local part of one or two characters gives its first character, `***@` and the domain |
| Security.MaskEmailLongLocal | lib/security.ts:86-94 | a longer local part gives its first character, `***`, its last character, `@` and the domain |
| Security.MaskEmailWithoutAt | lib/security.ts:86-94 | without an `@` the domain is rendered as `undefined` |
| Security.MaskEmailEmptyLocal | lib/security.ts:86-90 | an empty local part is rendered as `undefined`, then `***@` and the domain |
| Security.MaskEmailShortWithoutAt | lib/security.ts:86-90 | an input of at most two characters without an `@` gives its first character (or `undefined` when empty), `***@` and `undefined` |
| Security.MaskEmail | lib/security.ts:86-94 | maskEmail itself; it has no contract of its own. Every input either has no `@` (MaskEmailWithoutAt, MaskEmailShortWithoutAt) or is a local part, `@`, a domain and an optional `@…` tail, with a local part that is empty, short or long (MaskEmailEmptyLocal, MaskEmailShortLocal, MaskEmailLongLocal); together these state its result in every case |
| Security.MaskEveryChar | lib/security.ts:102 | the regular-expression `.` pass keeps the length, keeps line terminators and turns every other character into `*` |
| Security.MaskPhone | lib/security.ts:100-109 | the length is preserved; up to six characters everything but line terminators is masked; longer numbers keep their first 3 and last 4 characters and mask the middle |
| Security.MaskPhoneHidesMiddle | lib/security.ts:100-109 | two long numbers that differ only in the middle have the same mask |
| Security.RemoveWhitespace | lib/security.ts:116 | every character of the result occurs in the input and the result is no longer, and none of it is whitespace |
| Security.RemoveWhitespaceAppend | lib/security.ts:116 | removing whitespace distributes over concatenation |
| Security.LastUpTo | lib/security.ts:117 | `slice(-4)` gives the last four characters, or the whole string when it is shorter |
| Security.MaskCardNumber | lib/security.ts:115-119 | the result is `****-****-****-` followed by at most four characters, none of them whitespace |
| Security.MaskCardIgnoresWhitespace | lib/security.ts:115-119 | whitespace anywhere in the number does not change the mask |
| Security.SameCleanedSameMask | lib/security.ts:115-119 | two numbers that are equal once their whitespace is removed have the same mask |
| Security.MaskCardShowsLastFour | lib/security.ts:115-119 | a number without whitespace shows exactly its last four characters, or all of them when it has fewer |
| Security.MaskCardShowsCleanedTail | lib/security.ts:115-119 | for every number, what follows the mask is the last four characters of the number with whitespace removed, or all of them when there are fewer |
| Security.ValidateFile | lib/security.ts:143-167 | valid exactly when the size is within the limit (default 5 MB) and the type list is empty or holds the type; the size error comes first, then the type error |
| Security.ValidateFileMonotone | lib/security.ts:150-157 | raising the size limit never turns an accepted file into a rejected one |
| Security.Recent | lib/security.ts:184 | the filter keeps exactly the timestamps within the window of `now` |
| Security.RateLimiter.constructor | lib/security.ts:177 | a new limiter stores no attempts |
| Security.RateLimiter.Check | lib/security.ts:179-195 | allowed exactly when fewer than `maxAttempts` stored attempts lie within the window; when allowed the key's list becomes those attempts plus `now`, at most `maxAttempts` long; when refused nothing changes; other keys are untouched |
| Security.RateLimiter.Reset | lib/security.ts:197-199 | the key is removed and every other key keeps its list |
| Security.CheckAfterResetAllowed | lib/security.ts:186-199 | after a reset, a check with `maxAttempts` of at least 1 is allowed |
| Security.CheckLeavesOtherKeys | lib/security.ts:192 | a check never changes another key's list |
| Security.CheckKeepsOnlyRecent | lib/security.ts:184-192 | after an allowed check every stored attempt of the key is within the window or is `now` |
| Security.RecentKeepsCountFrom | lib/security.ts:184 | pruning at a time within the window of `lo` keeps every attempt made at or after `lo` |
| Security.AtMostMaxPerWindow | lib/security.ts:179-195 | over any run of checks of one key within one window, the allowed ones plus the earlier attempts kept in that window never exceed `maxAttempts` |
| Security.AllowedChecksBounded | lib/security.ts:179-195 | over any run of checks of one key within one window, at most `maxAttempts` are allowed, and none when it is not positive |
| MockData.GeneratedIdInjective | context/MockDataContext.tsx:126-152 | generated ids are equal exactly when the clock readings are: distinct readings give distinct ids, and the same millisecond gives the same id |
| MockData.GeneratedId | context/MockDataContext.tsx:126-152 | the generated id; stated by GeneratedIdInjective |
| MockData.NewBookingKeepsData | context/MockDataContext.tsx:123-129 | a new booking carries every supplied field unchanged, the generated id and status `upcoming` |
| MockData.NewBooking | context/MockDataContext.tsx:123-129 | the booking addBooking builds; stated by NewBookingKeepsData |
| MockData.CancelIn | context/MockDataContext.tsx:134 | the map keeps length and order; matching bookings become `cancelled` with all other fields kept; the rest are untouched |
| MockData.SetStatusIn | context/MockDataContext.tsx:138 | the map keeps length and order; matching devices get the new status with all other fields kept; the rest are untouched |
| MockData.CancelIdempotent | context/MockDataContext.tsx:133-135 | cancelling twice is cancelling once |
| MockData.CancelAbsentIsNoop | context/MockDataContext.tsx:133-135 | cancelling an id no booking has changes nothing |
| MockData.CancelOverridesCompleted | context/MockDataContext.tsx:134 | a completed booking with the id also becomes `cancelled`, its data unchanged |
| MockData.SetStatusLastWins | context/MockDataContext.tsx:137-139 | setting a status twice keeps only the second |
| MockData.SetStatusSameIsNoop | context/MockDataContext.tsx:137-139 | setting the status a device already has changes nothing |
| MockData.Store.constructor | context/MockDataContext.tsx:113-115 | the store starts with the initial devices, games and bookings |
| MockData.Store.AddBooking | context/MockDataContext.tsx:123-131 | exactly one `upcoming` booking with the supplied data is put in front; the rest of the list is the old list; devices and games are unchanged |
| MockData.Store.CancelBooking | context/MockDataContext.tsx:133-135 | the bookings become the cancelled map of the old bookings; devices and games are unchanged |
| MockData.Store.UpdateDeviceStatus | context/MockDataContext.tsx:137-139 | the devices become the status map of the old devices; games and bookings are unchanged |
| MockData.InitialDevices | context/MockDataContext.tsx:55-62 | the six initial devices; stated by InitialDeviceIdsDistinct and Validations.InitialDevicesPassDeviceRules |
| MockData.InitialDeviceIdsDistinct | context/MockDataContext.tsx:55-62 | the initial devices have distinct ids |
| MockData.InitialGames | context/MockDataContext.tsx:64-73 | the eight initial games; stated by InitialGamesWellFormed |
| MockData.InitialGamesWellFormed | context/MockDataContext.tsx:64-73 | the initial games have distinct ids and each runs on at least one platform |
| MockData.InitialBookings | context/MockDataContext.tsx:75-106 | the two initial bookings; stated by Validations.InitialDurationsNotAccepted and Validations.InitialBookingsFailBookingFields |
| MockData.NewDevice | context/MockDataContext.tsx:141-147 | the device addDevice builds; stated by NewDeviceKeepsData and Store.AddDevice |
| MockData.NewDeviceKeepsData | context/MockDataContext.tsx:141-147 | a new device carries every supplied field unchanged and the generated `dev-` id |
| MockData.NewGame | context/MockDataContext.tsx:149-155 | the game addGame builds; stated by NewGameKeepsData and Store.AddGame |
| MockData.NewGameKeepsData | context/MockDataContext.tsx:149-155 | a new game carries every supplied field unchanged and the generated `g-` id |
| MockData.Store.AddDevice | context/MockDataContext.tsx:141-147 | one device with the generated `dev-` id is appended; games and bookings are unchanged |
| MockData.Store.AddGame | context/MockDataContext.tsx:149-155 | one game with the generated `g-` id is appended; devices and bookings are unchanged |
| Validations.EmailShapeOf | lib/validations.ts:14 | every `local@domain.tld` with non-empty parts free of whitespace and `@` matches the e-mail pattern |
| Validations.EmailShape | lib/validations.ts:14 | the e-mail pattern; stated by EmailShapeOf, EmailShapeHasOneAt and UsernameIsNotEmail |
| Validations.UsernameShape | lib/validations.ts:15 | the username pattern; stated by UsernameIsNotEmail and RegisteredUsernameCanLogIn |
| Validations.EmailShapeHasOneAt | lib/validations.ts:14 | a string matching the e-mail pattern has no whitespace and exactly one `@` |
| Validations.UsernameIsNotEmail | lib/validations.ts:14-16 | a username-shaped identifier never matches the e-mail pattern |
| Validations.LoginIdentifierValid | lib/validations.ts:8-21 | the identifier rule; stated by UsernameIsNotEmail, EmailShapeOf and RegisteredUsernameCanLogIn |
| Validations.LoginPasswordValid | lib/validations.ts:22-25 | the login password rule; stated by RegisteredPasswordCanBeRefusedAtLogin and RegisteredCredentialsCanLogIn |
| Validations.LoginValid | lib/validations.ts:7-26 | both login rules; stated by RegisteredCredentialsCanLogIn |
| Validations.RegisterErrors | lib/validations.ts:28-51 | each field carries an error exactly when its rule fails; a password mismatch always puts an error on `confirmPassword`, even when other fields fail |
| Validations.RegisterUsernameValid | lib/validations.ts:30-34 | the register username rule; stated by RegisterErrors, AcceptedRegistration and RegisteredUsernameCanLogIn |
| Validations.StrongPassword | lib/validations.ts:39-45 | the register password rule; stated by RegisterErrors, AcceptedRegistration and RegisteredPasswordCanBeRefusedAtLogin |
| Validations.AcceptedRegistration | lib/validations.ts:28-51 | an accepted registration has a valid username, a non-empty e-mail and a strong password equal to its confirmation |
| Validations.RegisteredUsernameCanLogIn | lib/validations.ts:15-34 | a username accepted at registration is accepted as a login identifier |
| Validations.RegisteredPasswordCanBeRefusedAtLogin | lib/validations.ts:22-45 | a 101-character strong password is accepted at registration and refused at login |
| Validations.RegisteredCredentialsCanLogIn | lib/validations.ts:7-51 | credentials accepted at registration log in exactly when the password has at most 100 characters |
| Validations.ProfilePhoneShape | lib/validations.ts:66-70 | a phone number is valid exactly when it is empty or an optional `+` then 2 to 15 digits, the first not zero |
| Validations.E164Shape | lib/validations.ts:68 | the E.164 pattern; stated by ProfilePhoneShape and LongPhoneRefused |
| Validations.ProfilePhoneValid | lib/validations.ts:66-70 | the phone rule; stated by ProfilePhoneShape and LongPhoneRefused |
| Validations.DisplayNameValid | lib/validations.ts:58-62 | the display-name rule; stated by DisplayNameRefusesSymbols |
| Validations.DisplayNameRefusesSymbols | lib/validations.ts:62 | a display name holding a character other than a letter, digit or whitespace is refused at any length |
| Validations.LongPhoneRefused | lib/validations.ts:68 | a phone number longer than 16 characters is refused |
| Validations.DurationValidExactly | lib/validations.ts:95-103 | the duration is valid exactly when it is one of the four listed strings |
| Validations.InitialDurationsNotAccepted | lib/validations.ts:95-103 | no initial booking's duration is accepted |
| Validations.DurationValid | lib/validations.ts:95-103 | the duration rule; stated by DurationValidExactly and InitialDurationsNotAccepted |
| Validations.BookingFieldsValid | lib/validations.ts:77-104 | the booking rules without the date refinement; stated by InitialBookingsFailBookingFields |
| Validations.InitialBookingsFailBookingFields | lib/validations.ts:77-104 | no initial booking, as stored, passes the booking field rules |
| Validations.ParseDeviceType | lib/validations.ts:115-117 | the enumeration accepts exactly the three type names and maps each to its type |
| Validations.ParseDeviceStatus | lib/validations.ts:118-120 | the enumeration accepts exactly the four status names and maps each to its status |
| Validations.ParseDevice | lib/validations.ts:110-126 | a device parses exactly when the name has 3 to 50 characters, type and status are known, the specs have at least 10 characters and the price is in (0, 10000]; every field comes through unchanged |
| Validations.ParsePlatforms | lib/validations.ts:134-135 | the platform list parses exactly when every entry is a platform name, and keeps its order |
| Validations.ValidGamePlatforms | lib/validations.ts:128-141 | a valid game has a non-empty list of known platforms |
| Validations.GameValid | lib/validations.ts:128-141 | the game rules; stated by ValidGamePlatforms |
| Validations.InitialDevicesPassDeviceRules | lib/validations.ts:110-126 | every initial device satisfies the device rules |
| TimeSlots.Slots | components/booking/TimeSlotGrid.tsx:11 | exactly 13 slots are generated |
| TimeSlots.PadStart2 | components/booking/TimeSlotGrid.tsx:13 | `padStart(2, '0')` gives two characters for a shorter input, and leaves a longer one as it is |
| TimeSlots.SlotLabel | components/booking/TimeSlotGrid.tsx:13 | the label of one hour; stated by SlotIsHour and SlotRange |
| TimeSlots.SlotIsHour | components/booking/TimeSlotGrid.tsx:11-14 | slot i is the two-digit hour 10 + i followed by `:00` |
| TimeSlots.SlotRange | components/booking/TimeSlotGrid.tsx:11-14 | the slots run from `10:00` to `22:00` |
| TimeSlots.SlotHours | components/booking/TimeSlotGrid.tsx:11-18 | the hours read from the slots are 10 + i, strictly increasing, and the slots are distinct |
| TimeSlots.HourOfDecimal | components/booking/TimeSlotGrid.tsx:17-18 | the parsed hour of `n:…` is n |
| TimeSlots.HourOf | components/booking/TimeSlotGrid.tsx:17-18 | the hour `formatTime` reads; stated by HourOfDecimal |
| TimeSlots.JsRemainder | components/booking/TimeSlotGrid.tsx:20 | `%` with a positive divisor takes the sign of the dividend and stays below the divisor in size |
| TimeSlots.Hour12 | components/booking/TimeSlotGrid.tsx:20 | `h % 12 or 12` is 12 for NaN and, for non-negative hours, lies in 1..12 and agrees with h modulo 12 |
| TimeSlots.TwelveHour | components/booking/TimeSlotGrid.tsx:20 | the hour on the 12-hour clock lies in 1..12 and agrees with the hour modulo 12 |
| TimeSlots.FormatTimeOfHour | components/booking/TimeSlotGrid.tsx:16-22 | for every `n:…` the label is the hour on the 12-hour clock, in 1..12, then `PM` exactly when n is at least 12; `n` is exact, which JavaScript matches up to 2^53 (see `TimeSlots.FormatTime` under "## Left out") |
| TimeSlots.FormatDaytimeHour | components/booking/TimeSlotGrid.tsx:16-22 | an hour from 10 to 22 shows as itself up to 12 and as the hour minus 12 after, then `PM` exactly from 12 on |
| TimeSlots.FormatTimeWithoutHour | components/booking/TimeSlotGrid.tsx:18-21 | a time whose hour is not a number shows `12 AM` |
| TimeSlots.FormatSlot | components/booking/TimeSlotGrid.tsx:11-22 | the generated slots show `10 AM` … `12 PM`, `1 PM` … `10 PM` |
| TimeSlots.FormatTime | components/booking/TimeSlotGrid.tsx:16-22 | formatTime itself; stated by FormatTimeOfHour, FormatTimeWithoutHour, FormatDaytimeHour and FormatSlot |
| TimeSlots.Press | components/booking/TimeSlotGrid.tsx:33-40 | pressing selects the slot exactly when it is not booked |
| TimeSlots.IsBooked | components/booking/TimeSlotGrid.tsx:33 | `bookedSlots.includes(time)`; its effect is stated by Press and SelectableSlots |
| TimeSlots.ShownSlotCount | components/booking/TimeSlotGrid.tsx:28 | the count shown is 13, whatever is booked |
| TimeSlots.SelectableSlots | components/booking/TimeSlotGrid.tsx:32-40 | a slot can be selected exactly when it is generated and not booked |
| TimeSlots.NothingBookedAllSelectable | components/booking/TimeSlotGrid.tsx:9-33 | with nothing booked every slot can be selected |
| BookingList.Upcoming | components/dashboard/BookingList.tsx:12 | holds exactly the bookings with status `upcoming` |
| BookingList.History | components/dashboard/BookingList.tsx:13 | holds exactly the bookings whose status is not `upcoming` |
| BookingList.UpcomingKeepsOrder | components/dashboard/BookingList.tsx:12 | the upcoming filter keeps the original order: it distributes over concatenation |
| BookingList.HistoryKeepsOrder | components/dashboard/BookingList.tsx:13 | the history filter keeps the original order: it distributes over concatenation |
| BookingList.TabsPartition | components/dashboard/BookingList.tsx:12-13 | the two tabs together hold every booking as often as the input does, and their lengths add up to the input's |
| BookingList.TabsDisjoint | components/dashboard/BookingList.tsx:12-13 | no booking is on both tabs |
| BookingList.DisplayedOnOneTab | components/dashboard/BookingList.tsx:15 | a booking is displayed on the upcoming tab exactly when it is `upcoming`, and on the history tab otherwise |
| BookingList.Displayed | components/dashboard/BookingList.tsx:15 | the list of the active tab; stated by DisplayedOnOneTab and UpcomingLabelCount |
| BookingList.UpcomingLabelCount | components/dashboard/BookingList.tsx:31 | the upcoming label counts the bookings the upcoming tab displays |
| BookingList.NewBookingShownFirst | components/dashboard/BookingList.tsx:12 | a booking just added is first on the upcoming tab, before the earlier ones |
| BookingList.CancelledLeavesUpcoming | components/dashboard/BookingList.tsx:12 | after cancelling an id no booking with it is on the upcoming tab |
| AdminDevices.ToggledStatus | app/admin/devices/page.tsx:18 | `Online` becomes `Maintenance`; every other status becomes `Online` |
| AdminDevices.ToggleTwice | app/admin/devices/page.tsx:18 | toggling twice restores the status exactly when it was `Online` or `Maintenance` |
| AdminDevices.Toggled | app/admin/devices/page.tsx:15-22 | length and order are kept; only rows with the id get the toggled status |
| AdminDevices.ToggledKeepsAllButStatus | app/admin/devices/page.tsx:15-22 | id, name, type and session of every row are kept |
| AdminDevices.ToggledTwiceRestores | app/admin/devices/page.tsx:15-22 | toggling the same id twice restores the list when its rows are `Online` or `Maintenance` |
| AdminDevices.ToggleButton | app/admin/devices/page.tsx:76-82 | a row has a toggle button exactly when it is not `Occupied` |
| AdminDevices.OfflineLabelSetsMaintenance | app/admin/devices/page.tsx:18-81 | the button labelled `Set Offline` sets `Maintenance` |
| AdminDevices.InitialAdminDevices | app/admin/devices/page.tsx:7-13 | the page's five rows; their ids are distinct, as DevicesPage.constructor states |
| AdminDevices.DevicesPage.constructor | app/admin/devices/page.tsx:7-13 | the page starts with its five rows, whose ids are distinct |
| AdminDevices.DevicesPage.ToggleStatus | app/admin/devices/page.tsx:15-22 | the list becomes the toggled list and its ids stay distinct |
| AdminDevices.DevicesPage.PressToggle | app/admin/devices/page.tsx:76-82 | pressing the button of an `Occupied` row changes nothing; no `Occupied` row ever changes; otherwise the row's id is toggled |
| GamesPage.Dedup | app/games/page.tsx:11 | the set conversion gives no duplicates, the same elements and no more entries than the input |
| GamesPage.GenreList | app/games/page.tsx:11 | the mapped list has one genre per game, in the games' order |
| GamesPage.DedupFirstOccurrenceOrder | app/games/page.tsx:11 | the de-duplicated list is ordered by first occurrence |
| GamesPage.Genres | app/games/page.tsx:11 | genres are distinct, are exactly the games' genres, and are no more than the games |
| GamesPage.GenresInFirstAppearanceOrder | app/games/page.tsx:11 | the genres appear in the order of their first game |
| GamesPage.GenreGames | app/games/page.tsx:37 | a genre's group holds exactly the games of that genre |
| GamesPage.GroupsNonEmpty | app/games/page.tsx:36-37 | every displayed genre has at least one game |
| GamesPage.GroupsCoverGames | app/games/page.tsx:37 | over distinct genres that cover every game, the group sizes add up to the number of games |
| GamesPage.GroupsPartitionGames | app/games/page.tsx:37-115 | the group sizes shown add up to the total shown |
| BookPage.OfType | app/book/page.tsx:30 | holds exactly the devices of the type, each as often as in the input, and no other device |
| BookPage.TypesPartitionDevices | app/book/page.tsx:30 | the device counts of the three types add up to the number of devices |
| BookPage.OnlineCount | app/book/page.tsx:31 | the number of devices whose status is `Online`; zero exactly when none is online |
| BookPage.TypeId | app/book/page.tsx:38 | the card id is `pc`, `ps5` or `xbox` |
| BookPage.TypeImage | app/book/page.tsx:42 | the icon of each type; stated by TypeStylesDistinct and GetDeviceInfo |
| BookPage.TypeColor | app/book/page.tsx:43 | the colour of each type; stated by TypeStylesDistinct and GetDeviceInfo |
| BookPage.TypeStylesDistinct | app/book/page.tsx:42-43 | two types share an icon, or a colour, exactly when they are the same type |
| BookPage.GetDeviceInfo | app/book/page.tsx:29-47 | no card exactly when no device has the type; otherwise the id is the lower-cased type, `total` is the number of devices of the type, at least 1, and `available` the number online, at most `total`; name, specs and price come from the first device of the type (name cut at `#` and trimmed, specs split at `, `), image and colour from the type |
| BookPage.OfTypeFirst | app/book/page.tsx:32 | the card's base device is the first device of the type in the list |
| BookPage.CardNameBeforeHash | app/book/page.tsx:39 | the card name is the name up to its first `#`, trimmed |
| BookPage.CardName | app/book/page.tsx:39 | the card name; stated by CardNameBeforeHash |
| BookPage.CardSpecsRejoin | app/book/page.tsx:40 | joining the card's specs with `, ` gives the base device's specs |
| BookPage.NothingOnlineIsFull | app/book/page.tsx:31-44 | a type with nothing online has nothing available |
| BookPage.DisplayedDevices | app/book/page.tsx:49 | at most three cards, each with `available` at most `total` and `total` at least 1 |
| BookPage.InfosOf | app/book/page.tsx:49 | the mapped list has one entry per type, each the card (or none) of that type |
| BookPage.DisplayedDevicesInTypeOrder | app/book/page.tsx:15-49 | the cards are those of PC, PS5 and XBOX, in that order, skipping absent types |
| BookPage.KeepPresent | app/book/page.tsx:49 | the null filter keeps exactly the present cards |
| BookPage.CardForEveryPresentType | app/book/page.tsx:30-49 | a type has a card exactly when some device has that type |
| BookPage.NoCardForMissingType | app/book/page.tsx:30-49 | a type without devices has no card among the displayed ones |
| BookPage.CardOfType | app/book/page.tsx:49 | the card of a type that has devices is displayed |
| BookPage.CardSource | app/book/page.tsx:49 | every displayed card is the card of some type |
| BookPage.SelectLink | app/book/page.tsx:107 | the link is not `#` exactly when something is available, and then it is `/book/` followed by the card's id |
| BookPage.SelectButton | app/book/page.tsx:108-113 | the button is enabled exactly when the link is real, and reads `Select` or `Full` accordingly |
| AdminOverview.RevenueConcat | app/admin/page.tsx:9 | revenue adds up over concatenation |
| AdminOverview.RevenueNonNegative | app/admin/page.tsx:9 | revenue is non-negative when prices are |
| AdminOverview.RevenueAfterAdd | app/admin/page.tsx:9 | adding a booking adds its price |
| AdminOverview.RevenueAfterCancel | app/admin/page.tsx:9 | cancelling leaves the revenue unchanged: cancelled bookings still count |
| AdminOverview.SamePricesSameRevenue | app/admin/page.tsx:9 | two lists with the same prices position by position have the same revenue |
| AdminOverview.TotalRevenue | app/admin/page.tsx:9 | the `reduce` sum of the prices; stated by RevenueConcat, RevenueNonNegative, RevenueAfterAdd, RevenueAfterCancel and SamePricesSameRevenue |
| AdminOverview.ActiveSessions | app/admin/page.tsx:10 | the number of devices whose status is `Occupied`; equal to the number of devices exactly when every device is `Occupied` |
| AdminOverview.StatusCountsAddUp | app/admin/page.tsx:10-11 | the active sessions and the counts of the other three statuses add up to the total devices |
| AdminOverview.TotalDevices | app/admin/page.tsx:11 | `devices.length`; its relation to the active sessions is stated by StatusCountsAddUp |
| AdminOverview.TodayOfIso | app/admin/page.tsx:13 | the day of an ISO time is its date part |
| AdminOverview.Today | app/admin/page.tsx:13 | the date part of the ISO time; stated by TodayOfIso |
| AdminOverview.BookingsOn | app/admin/page.tsx:14 | holds exactly the bookings whose date string is the given day, each as often as in the input; its length is the number of bookings with that date |
| AdminOverview.TodaysBookings | app/admin/page.tsx:14 | the number of bookings whose date is the given day; zero exactly when there is none |
| AdminOverview.Reverse | app/admin/page.tsx:26 | the reversed copy has the same length, read back to front |
| AdminOverview.RecentActivity | app/admin/page.tsx:26 | the feed has min(5, n) entries: the last bookings of the list, from the end backwards |
| AdminOverview.RecentActivityIgnoresNewBooking | app/admin/page.tsx:26 | as written, with five or more bookings, adding a booking leaves the feed unchanged |
| AdminOverview.NewBookingMissingFromFeed | app/admin/page.tsx:26 | as written, a booking added to five older ones is not in the feed |
| AdminOverview.RecentActivityNewestFirst | app/admin/page.tsx:26 | the corrected feed is the first min(5, n) bookings, the newest ones |
| AdminOverview.NewestFirstShowsNewBooking | app/admin/page.tsx:26 | with the corrected feed a new booking is shown first and the earlier entries move down by one |

## Left out

- Text.ParseInt: the `0x`/`0X` prefix is read as decimal (`0x1A` gives 0 where JavaScript gives 26, and `0x` gives 0 where JavaScript gives NaN); no string the source passes to `parseInt` starts with it.
- All JSX rendering, styling and animation, and the pages' other markup, are presentation only.
- React context providers, hooks and `useState` wiring are replaced by the classes `MockData.Store` and `AdminDevices.DevicesPage`. A state update is a method call.
- Timers and randomness are not modelled: toasts, the splash screen, and the simulated API delay of login and register.
- The clock is not modelled. `Date.now()` and today's ISO string are parameters. Ids generated in the same millisecond collide, as `MockData.GeneratedIdInjective` states.
- Floating point is not modelled: prices are exact `real`s, and `toLocaleString`, the tax and `toFixed` are left out. So are the occupancy percentage's `Math.round` and the megabyte figure and message text of `validateFile`'s errors.
- The pricing string of a booking card (`₹…/hr`) is not built; the card keeps the price as a number.
- `encodeData`/`decodeData` (base64), `hashString` (Web Crypto), `secureStorage` and the CSRF helpers are platform calls and are left out.
- Zod internals are not modelled: issue ordering and error objects. The built-in `.email()` check is the `emailFormatOk` parameter of `Validations.RegisterErrors`; profile e-mail is left out for the same reason.
- The booking schema's "today or in the future" date refinement is left out, because it depends on the clock and the time zone.
- `contactSchema` is not part of this model; only the schemas listed above are.
- Strings are sequences of Unicode scalar values, not of UTF-16 code units. A character above U+FFFF (an emoji such as `🎮`) has length 1 here and 2 in JavaScript. So lengths, `slice` and `/./g` differ on such strings: the register password `Aa1!🎮🎮` has length 8 in JavaScript and passes `.min(8)`, but `Validations.StrongPassword` sees 6 characters and refuses it; `maskPhone` writes two `*` per emoji in JavaScript and one here; `slice(-4)` in `maskCardNumber` keeps a different tail. Unicode case mapping beyond ASCII is not modelled either. Neither is `parseInt`'s hexadecimal prefix: no string the source passes to `parseInt` (the generated slot labels) starts with it.
- Booking and device statuses are closed datatypes, so a status outside the union types cannot arise in the model.
- `[...bookings].reverse()` works on a copy. Sequences are values here, so the store's list cannot be changed by it.
- TimeSlots.FormatTime: JavaScript numbers are doubles, and the model's hour is an exact integer. The two differ only for labels the page never passes: an hour above 2^53 is rounded by `parseInt`, while every integer up to 2^53 is exact in both (`9007199254740993:00` shows `8 PM` there and `9 PM` here), and a digit run beyond the double range becomes `Infinity`, whose `% 12` is NaN and shows `12 PM`. The page only passes its own two-digit slot labels, where the two agree. The same applies to `TimeSlots.FormatTimeOfHour`, `Text.ParseIntOfDecimal` and `Text.DigitsValueOfDecimal`, which are stated for every natural number.
- `Text.Split`: states only that there is at least one piece. Its content is stated by `Text.JoinSplit` and `Text.SplitPiecesAvoidSeparator`.
- `app/admin/games/page.tsx`, the booking confirmation page and the date selector are not part of this model.

## Findings

| source | as written | input that shows it | evidently intended | confidence | as-written member | corrected member |
|---|---|---|---|---|---|---|
| lib/security.ts:8-14 | removes `javascript:` (and `on…=`) in a single pass, so the deletion can join the text around it into a new match | `javajavascript:script:` sanitises to `javascript:`, which `isSafeString` refuses | the sanitised output is free of the protocol and handler patterns, so it always passes `isSafeString` | not executed | Security.SanitizeStringCanRebuildProtocol | Security.SanitizeStringStableIsSafe |
| app/admin/page.tsx:26 | `reverse().slice(0, 5)` takes the last five entries, but `addBooking` (context/MockDataContext.tsx:130) puts new bookings first, so the feed shows the oldest bookings | five bookings, then one more added: the added booking is not in the feed | the feed shows the five most recent bookings, newest first | not executed | AdminOverview.NewBookingMissingFromFeed | AdminOverview.NewestFirstShowsNewBooking |
