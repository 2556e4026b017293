# Verified model of the MSK residence backend

This project models the parts of the MSK backend where several tables must agree with one
another, and proves what they promise. It is written in Dafny 4.11; `dafny verify dfyconfig.toml`
checks all of it.

**The reservation engine** (`src/modules/bookings`, `src/modules/availability`). A small hotel
database: per-day calendar rows (`inventory`, `reserved`), date blocks, and bookings with
half-open stays that may be pinned to rooms.

- `HotelModel`, `Days`, `Text`, `Numbers`, `Wrappers`: the tables, UTC days, strings.
- `Ledger`: what one reservation, release or upsert does to the calendar rows.
- `Engine`: every service call as one atomic step on the tables, and runs of steps.
- `Hotel`: the same calls as methods of a class holding the tables, with the loops of the code,
  each proved to be the engine's step.
- `BookingCalls`: what each call answers and writes, in the columns of the tables.
- `NoOverlap`, `Lifecycle`, `Conservation`, `Overselling`, `PublicView`, `CalendarView`,
  `CalendarAdmin`, `Pricing`, `Concurrency`: the properties of runs; `Throughout` is the induction
  they share.

**The Mews mirror** (`src/modules/mews-sync`). `MewsFetch` is the windowed fetch with its chunked
fallback; `MewsMirror` is the upsert loop, its closed form, the whole sync, and its interplay
with the calls of the engine.

**Smaller services**: `Permissions`, `Faqs`, `Orders`, `Inventory`, `Invoices`, `Attendance`.

## What the proofs found

Most results hold as promised. These are places where the code does something a reader of its
comments would not expect; the model follows the code and the proofs say exactly when it matters.

- *Cancelling a pinned booking releases nothing.* `cancel` releases by the booking's current room,
  and no calendar row carries a room. `Conservation.StepConservesIff` gives the complete list of
  steps after which `reserved` no longer counts the bookings: such a cancellation, moving a booking
  to other nights, cancelling a mirrored booking that has no room type, and a create whose
  generated reference is already taken (the nights are reserved before the booking is inserted).
  `Conservation.RunConservesIff` carries it to whole runs, `RunGap` says by how much any run ends off,
  and three short runs from an empty hotel show drifts within reach (`PinnedCancelDrifts`,
  `MovedStayDrifts`, `ReusedReferenceDrifts`). Mirrored rows add one more: giving a typed booking
  other nights, or cancelling it or bringing it back (`MewsMirror.HistoryConservesIff`).
- *A drift can sell what is not there.* Calls made one at a time never oversell a night, short of an
  administrator cutting it below what is reserved (`Overselling.RunOversellsIff`); but a stay sold,
  moved and cancelled leaves -1 reserved, and the night is offered with a unit too many
  (`Overselling.MovedCancelOffersTooMuch`).
- *A booking hides its whole property.* The block `create` writes has no room, so the public view
  reads every room type of the property as sold out from check-in through the check-out day, and no
  other day or property (`PublicView.BookingHidesIff`).
- *A booking that is made and cancelled can change a currency.* The calendar rows it leaves behind
  are in "USD" (`PublicView.CreateThenCancelKeepsCurrencyIff`); likewise a row an administrator adds
  without naming one (`CalendarAdmin.SavedIsShown`).
- *A no-show still competes for rooms.* `assignRoom` and `moveDates` refuse it what could harm
  nobody (`NoOverlap.NoShowIsRefusedNeedlessly`).
- *A closed stay is not frozen.* `claimByReference` looks at no status: a claim that takes the booking
  over is the one call that changes a cancelled booking, and with `cancel` the one that changes a
  checked-out one (`Lifecycle.ClosedChangesIff`, over runs `ClosedStaysIff`).
- *The reservation ignores blocks and close-outs.* `PublicView.OnSaleIff` shows this is the only
  way the public view and `tryReserve` differ.
- *The "lock-and-check" of `tryReserve` takes no lock.* With k calls in flight a night can be
  oversold by k - 1 calls' worth, never by more (`Concurrency.OversellBound`, reached by
  `Concurrency.OversellBoundIsReached`); and where the row does not exist yet, two calls create two
  rows, which is exactly when a night can be duplicated (`Concurrency.OneRowForeverIff`).
- *A sync takes rooms unchecked.* The rooms stay free of clashes exactly as long as every mirrored
  row would have passed the query `assignRoom` runs (`MewsMirror.HistoryIsClashFreeIff`); two remote
  reservations in one room show it can fail (`MewsMirror.SyncMayDoubleBook`). Pins match property and
  type exactly as long as every mirrored room suits its booking, which the room of a booking new to
  the mirror never does (`MewsMirror.HistoryPinsFitIff`).
- *The order of a sync matters exactly when two reservations share a reference*
  (`MewsMirror.OrderIsIrrelevantIff`).
- *A role saved with nothing ticked gets its defaults back at the next boot*, though seeding
  promises never to overwrite what an administrator saved (`Permissions.SetStaysIff`).
- *Importing an exported FAQ sheet is not always the identity*: exactly when every text is
  non-empty and trimmed (`Faqs.RoundTripIff`).

## Premises

- Each service call is one atomic step, except in `Concurrency`.
- Booking runs consist of `create`, `cancel`, `assignRoom`, `moveDates`, `checkInSubmit`,
  `claimByReference`, `checkOutSubmit`, `bulkUpsertCalendar`, `blockDates` and `unblockDates`. The
  desk routes `checkIn`, `checkOut` and `update` have no status guard, so they are not steps of
  those runs; nor are sync rows, which the histories of `MewsMirror` add.
- Bookings come from the public form, which names a room type and no room
  (`src/modules/bookings/dto/index.ts:16-73`, `src/main.ts:79-86`).
- A booking's id and its reference are one key in the model.
- `moveDates` and `calendar` receive whole days, as their documentation says.
- References, ids and profile numbers are drawn by the caller; a taken booking reference or order
  id is modelled as the failure it causes.
- A Mews page, when the remote answers, holds exactly the reservations colliding with its window,
  from one snapshot and untruncated, with the customers and spaces they mention.
- Supplier accounts are opened under lower-case emails, and a user's email does not change.

## Model

| member | source | states |
|---|---|---|
| Days.EnumerateDays | src/modules/availability/availability.service.ts:369-379 | lists exactly the midnights of the half-open range, in order, as many as there are nights |
| Days.NightsAreExact | src/modules/bookings/bookings.service.ts:84-86 | the rounded night count is the exact number of days between the two dates |
| Days.DayHasInstant | src/modules/availability/availability.service.ts:365-367 | an instant belongs to the day whose 86,400,000 milliseconds it lies in |
| Ledger.FirstOn | src/modules/availability/availability.service.ts:63-73 | the query followed by find yields the first matching row, and none only when no row matches |
| Ledger.EntryIsFirst | src/modules/availability/availability.service.ts:169-182 | a day's entry is the first row with its property, room type and day and no room, and there is none only when no row has them |
| Ledger.FirstFull | src/modules/availability/availability.service.ts:72-80 | the earliest night with too few free units, if there is one |
| Ledger.ReserveIffNotOversold | src/modules/availability/availability.service.ts:60-104 | a reservation is made exactly when it oversells no night, and a refusal names the earliest night it would oversell |
| Ledger.CommitEntry | src/modules/availability/availability.service.ts:82-102 | a reservation adds its units to each night of its own room type and stay, starts a one-unit row where there was none, and changes no other entry |
| Ledger.CommitKeepsWellFormed | src/modules/availability/availability.service.ts:82-102 | reservations keep one room-type row per property, room type and day, and no room-level rows |
| Ledger.NewRowsFillGaps | src/modules/availability/availability.service.ts:90-101 | exactly the nights without a row get one, in day order |
| Ledger.ReleaseEntry | src/modules/availability/availability.service.ts:116-127 | a release takes its units from the matching entries of the stay and from nothing else |
| Ledger.UpsertEntry | src/modules/availability/availability.service.ts:171-218 | one upsert overlays the given fields on the day's entry, or starts it with one unit |
| Ledger.UpsertAllKeepsReserved | src/modules/availability/availability.service.ts:169-221 | a bulk upsert never changes what is reserved and keeps the calendar well formed |
| CalendarAdmin.BulkUpsertInClosedForm | src/modules/availability/availability.service.ts:169-221 | all the entries for one room type and day act as one, later fields winning, and reach no other day |
| CalendarAdmin.SavedIsShown | src/modules/availability/availability.service.ts:156-222 | a sheet that needs a row for an unknown property or room type changes nothing; after any other the public view shows the last word on every field, keeps what it showed for fields and days left out, and offers the saved inventory less what is reserved; a null price or currency shows the room type's, and a day that had no row becomes "USD" unless told otherwise |
| CalendarAdmin.BulkUpsertIsIdempotent | src/modules/availability/availability.service.ts:145-221 | upserting the same entries twice is upserting them once |
| Hotel.Tables.TryReserve | src/modules/availability/availability.service.ts:51-105 | the two loops leave exactly the reserved rows, or refuse with the first full night and change nothing |
| Hotel.Tables.FindFull | src/modules/availability/availability.service.ts:72-80 | the checking loop finds the earliest full night |
| Hotel.Tables.WriteNights | src/modules/availability/availability.service.ts:82-102 | the writing loop leaves exactly the committed rows |
| Hotel.CommitOneMore | src/modules/availability/availability.service.ts:83-102 | one turn of the writing loop extends the committed stay by one night |
| Hotel.Tables.PriceStay | src/modules/bookings/bookings.service.ts:107-126 | the loop sums calendar-or-base prices and keeps the last currency named |
| Hotel.Tables.Create | src/modules/bookings/bookings.service.ts:83-178 | create is the engine's step: same tables, same refusals in the same order |
| Hotel.Tables.Cancel | src/modules/bookings/bookings.service.ts:810-837 | cancel is the engine's step, and a second cancel changes nothing |
| Hotel.Tables.AssignRoom | src/modules/bookings/bookings.service.ts:1818-1885 | assignRoom is the engine's step and touches bookings only |
| Hotel.Tables.MoveDates | src/modules/bookings/bookings.service.ts:1908-1972 | moveDates is the engine's step and touches bookings only |
| Hotel.Tables.CheckInSubmit | src/modules/bookings/bookings.service.ts:1227-1361 | checkInSubmit is the engine's step: only a pending or confirmed booking is checked in, contact fields given replace the old ones, and a booking on no account goes on the one its email leads to |
| Hotel.Tables.ClaimByReference | src/modules/bookings/bookings.service.ts:286-311 | claimByReference is the engine's step: a booking on another account is refused unless the guest's email is on it |
| Hotel.Tables.CheckOutSubmit | src/modules/bookings/bookings.service.ts:1664-1751 | checkOutSubmit is the engine's step: only a checked-in booking of the caller, settled or with a payment method |
| Hotel.Tables.BulkUpsertCalendar | src/modules/availability/availability.service.ts:156-222 | the loop is the fold of single upserts in one transaction, rolled back by the first entry whose property or room type does not exist |
| Hotel.Tables.BlockDates | src/modules/availability/availability.service.ts:129-139 | adds one block, linked to a booking if one is given; refuses an unknown property, room or booking and a booking that has a block already |
| Hotel.Tables.UnblockDates | src/modules/availability/availability.service.ts:141-143 | removes one block, refusing an unknown one |
| Engine.StepOnBooking | src/modules/bookings/bookings.service.ts:1818-1972 | a step creates the booking it names, turns it into another in the one way its kind allows, or leaves it; it loses none and touches no other |
| BookingCalls.CreateTurnsDown | src/modules/bookings/bookings.service.ts:83-131 | whom create turns down, and in which order it looks: dates, room type, property, the earliest night sold out, the reference |
| BookingCalls.CreateStores | src/modules/bookings/bookings.service.ts:137-163 | an accepted create adds one pending booking of the nights asked for, in no room, with nothing paid, for the guest and account of the form |
| BookingCalls.CreateBlocks | src/modules/bookings/bookings.service.ts:165-175 | and one block of the whole property, through the check-out day, linked to it |
| BookingCalls.CreateReserves | src/modules/availability/availability.service.ts:82-102 | one more unit on each night of the stay, a night without a row getting one of one unit in "USD"; so too when the reference is then refused |
| BookingCalls.CreateCharges | src/modules/bookings/bookings.service.ts:119-126 | the currency is the one named by the latest night that names one, else the room type's |
| BookingCalls.CancelCall | src/modules/bookings/bookings.service.ts:810-837 | cancel releases row by row, drops the booking's own blocks and closes the booking; a second one writes nothing |
| BookingCalls.AssignRoomCall | src/modules/bookings/bookings.service.ts:1818-1885 | a room must exist, fit and be free on the nights; taking a room away needs only an open booking |
| BookingCalls.MoveDatesCall | src/modules/bookings/bookings.service.ts:1908-1972 | the new dates must leave a night and find the room free; dates and night count change, nothing else |
| BookingCalls.CheckInCall | src/modules/bookings/bookings.service.ts:1227-1376 | an incomplete form, an unknown booking and one not awaiting arrival are refused; any other is checked in, with the contact given and the account it had or its email leads to |
| BookingCalls.ClaimCall | src/modules/bookings/bookings.service.ts:286-311 | a claim puts the booking on the account unless it is on another and no email matches |
| BookingCalls.CheckOutCall | src/modules/bookings/bookings.service.ts:1664-1751 | check-out needs a complete form, a checked-in booking, its own token or account, and a way to pay if anything is owed; it is then checked out and nothing else changes |
| BookingCalls.BlockCall | src/modules/availability/availability.service.ts:129-139 | whom blockDates turns down, and the block it adds |
| BookingCalls.SheetCall | src/modules/availability/availability.service.ts:169-221 | a sheet is saved whole, touching rows alone, or turned down for its first entry that needs a row for an unknown property or room type |
| BookingCalls.ArrivedGuestMayLeave | src/modules/bookings/bookings.service.ts:1664-1751 | after an accepted check-in the booking's token and its account, and nobody else, may check out |
| BookingCalls.UnassignUndoesAssign | src/modules/bookings/bookings.service.ts:1818-1885 | taking a room away undoes having given it |
| BookingCalls.NothingIsPaid | src/modules/bookings/bookings.service.ts:137-160 | in every run from an unsold hotel every booking owes its price |
| BookingCalls.NobodyLeavesWithoutPaying | src/modules/bookings/bookings.service.ts:1722-1729 | so whoever left a stay that cost something chose a way to pay on leaving |
| NoOverlap.StepKeepsRoomsSound | src/modules/bookings/bookings.service.ts:1818-1972 | every step keeps rooms free of clashes, pins matched to property and type, and night counts right |
| NoOverlap.StepKeepsClashFree | src/modules/bookings/bookings.service.ts:1818-1972 | no step makes a clash even among bookings whose rooms and dates came from elsewhere |
| NoOverlap.PlacedIff | src/modules/bookings/bookings.service.ts:1858-1868 | putting a booking in place keeps the bookings free of clashes if and only if the overlap query lets it stand |
| NoOverlap.RunKeepsRoomsSound | src/modules/bookings/bookings.service.ts:1818-1972 | so does every run from any sound state |
| NoOverlap.RunsNeverDoubleBookARoom | src/modules/bookings/bookings.service.ts:1804-1816 | after any run from an empty hotel, no room has two active bookings on one night |
| NoOverlap.StepKeepsPinsFit | src/modules/bookings/bookings.service.ts:1832-1857 | no step leaves a booking in a room of another property or type, whoever gave it its room before |
| NoOverlap.SoundRoomsHouseOneParty | src/modules/bookings/bookings.service.ts:1804-1816 | interval soundness is the night-by-night promise: one party per room and night, in a room of its own property and type |
| NoOverlap.ConflictIsSharedNight | src/modules/bookings/bookings.service.ts:1858-1868 | over sound rooms the overlap query finds a conflict exactly when another party sleeps in the room on a night between the dates |
| NoOverlap.AssignRoomIsExact | src/modules/bookings/bookings.service.ts:1832-1878 | a booking that is not closed gets a room if and only if the tables stay sound with it, expected to arrive, in that room |
| NoOverlap.MoveDatesIsExact | src/modules/bookings/bookings.service.ts:1913-1964 | a booking that is not closed is moved if and only if the tables stay sound with it, expected to arrive, on the new dates |
| NoOverlap.NoShowIsRefusedNeedlessly | src/modules/bookings/bookings.service.ts:1858-1955 | for a no-show any fitting room and any dates keep the rooms sound, yet the change is refused exactly when another party is expected there |
| Lifecycle.BookingsOnlyMoveOn | src/modules/bookings/bookings.service.ts:2141-2172 | over any run statuses only move forward, ended bookings are frozen but for the account they are on, and bookings no step names do not change |
| Lifecycle.ClosedChangesIff | src/modules/bookings/bookings.service.ts:286-309 | a cancelled booking changes if and only if a claim takes it over, a checked-out one also when it is cancelled, and neither otherwise |
| Lifecycle.ClosedStaysIff | src/modules/bookings/bookings.service.ts:286-309 | a closed stay remains as it is throughout a run if and only if the run holds no such step |
| Lifecycle.AccountChangesIff | src/modules/bookings/bookings.service.ts:1279-1318 | the account of a booking changes exactly when a claim takes it over or a complete check-in with an email finds it on none |
| Lifecycle.AccountIsKeptIff | src/modules/bookings/bookings.service.ts:301-309 | a booking on an account stays on it throughout a run if and only if no other guest whose email is on the booking claims it |
| Lifecycle.EveryArrivalAndDepartureWasEarned | src/modules/bookings/bookings.service.ts:1227-1255 | over any run from an empty hotel a checked-in or checked-out booking went through a complete check-in, and a checked-out one through a check-out it was entitled to and had settled |
| Conservation.StepGap | src/modules/bookings/bookings.service.ts:810-837 | in any state each step moves the gap between reserved units and holders, night by night, by exactly its slip |
| Conservation.RunGap | src/modules/bookings/bookings.service.ts:810-837 | so after any run, drifting or not, each night is off by exactly what its steps slipped |
| Conservation.StepConservesIff | src/modules/bookings/bookings.service.ts:810-837 | a step keeps `reserved` equal to the number of holders of every night if and only if it is not one of the listed drifting steps |
| Conservation.CreateGap | src/modules/bookings/bookings.service.ts:128-178 | create moves the gap only when its reference is taken after the reservation was made, by one on each night of the stay |
| Conservation.CancelSlipsIff | src/modules/bookings/bookings.service.ts:815-827 | from a conserved state cancel slips if and only if a room is pinned to a typed stay, or an untyped unpinned stay has rows on its nights |
| Conservation.MoveSlipsIff | src/modules/bookings/bookings.service.ts:1913-1969 | moveDates slips if and only if its guards accept it for a typed booking and other nights |
| Conservation.RunConservesIff | src/modules/bookings/bookings.service.ts:131-178 | from a conserved calendar, as an unsold hotel has, it is conserved at every point of a run if and only if no step of it drifts |
| Conservation.PinnedCancelDrifts | src/modules/bookings/bookings.service.ts:815-821 | from any empty hotel, selling a stay, giving it a fitting room and cancelling it drifts |
| Conservation.MovedStayDrifts | src/modules/bookings/bookings.service.ts:1958-1969 | so does selling a stay and moving it to any other dates |
| Conservation.ReusedReferenceDrifts | src/modules/bookings/bookings.service.ts:128-178 | so does selling a second stay under a reference that is taken, which is refused after its nights are reserved |
| Conservation.RowsCountBookings | src/modules/availability/availability.service.ts:82-127 | in a conserved state each row's `reserved` is the number of bookings holding it |
| Conservation.ReleasedAtMostOnce | src/modules/bookings/bookings.service.ts:811-813 | a cancelled booking can never be released again, whatever happens in between |
| Overselling.StepOversellsIff | src/modules/availability/availability.service.ts:60-104 | a call made on its own oversells a night if and only if it is a sheet cutting the night below what is reserved |
| Overselling.RunOversellsIff | src/modules/availability/availability.service.ts:60-104 | over any run, drifting ones included, a night is never oversold if and only if no sheet cuts it so |
| Overselling.HoldersFitInventory | src/modules/availability/availability.service.ts:60-104 | after any run from an unsold hotel that neither drifts nor cuts the night, its holders fit its inventory |
| Overselling.MovedCancelEntry | src/modules/bookings/bookings.service.ts:1958-1969 | selling, moving and cancelling a stay leaves -1 reserved on a night moved to that had a row, and 1 on a night moved from |
| Overselling.MovedCancelOffersTooMuch | src/modules/availability/availability.service.ts:297-341 | the public is then offered one unit more than such a night has |
| PublicView.ViewIsPointwise | src/modules/availability/availability.service.ts:248-351 | the rows and blocks loaded for a window give each day the answer the whole tables give |
| PublicView.PublicTellsTables | src/modules/availability/availability.service.ts:248-351 | each day of each room type is told in the columns of its row, its room type and the blocks: units left, price, currency, close-out and limits |
| PublicView.BlockedIff | src/modules/availability/availability.service.ts:297-319 | a room type is blocked on a day if and only if its property is, or it has rooms and each of them is |
| PublicView.OnSaleIff | src/modules/availability/availability.service.ts:297-341 | for any number of units, all nights show that many if and only if reserving them would succeed and no night is blocked or closed |
| PublicView.ShownStaysCanBeBooked | src/modules/availability/availability.service.ts:233-247 | in every reachable state a stay shown on sale can be booked, unless the drawn reference is taken |
| PublicView.RunKeepsCalendar | src/modules/availability/availability.service.ts:145-156 | every run keeps the calendar well formed, booking blocks tied to existing bookings, and at most one block a booking |
| PublicView.CreateThenCancelRestoresView | src/modules/bookings/bookings.service.ts:131-178 | in every state with a sound calendar create followed by cancel restores all public answers but the currency |
| PublicView.CreateThenCancelKeepsCurrencyIff | src/modules/availability/availability.service.ts:90-101 | a day keeps its currency through create and cancel if and only if it was not booked, had a row, or its room type is sold in "USD" |
| PublicView.BookingHidesIff | src/modules/bookings/bookings.service.ts:165-175 | a booking hides exactly the days from check-in through check-out, of every room type of its own property |
| PublicView.BookingHidesProperty | src/modules/bookings/bookings.service.ts:165-175 | on those days every room type of the property reads as blocked and sold out |
| PublicView.BlockHidesIff | src/modules/availability/availability.service.ts:239-246 | a property block hides every room type of its property on its days, a room block hides its type exactly when it takes the last free room, and neither another property nor a refused block matters |
| PublicView.UnblockUndoesBlock | src/modules/availability/availability.service.ts:129-143 | lifting a block restores the tables |
| PublicView.PinnedCancelLeaks | src/modules/bookings/bookings.service.ts:815-821 | cancelling a pinned booking leaves every reserved count as it was |
| CalendarView.NightsFitTheGrid | src/modules/bookings/bookings.service.ts:1984-2037 | the clipped nights of the room-assigned bookings are at most rooms times days |
| CalendarView.ListsPartition | src/modules/bookings/bookings.service.ts:2032-2036 | the two lists split exactly the active bookings of the property with a night in the window |
| CalendarView.CalendarTellsTables | src/modules/bookings/bookings.service.ts:1984-2037 | windows of one to ninety days are answered with the rooms of the property, the stays with a room and the stays without one |
| Pricing.StayPriceSplits | src/modules/bookings/bookings.service.ts:117-126 | the price of a stay is additive at any interior day |
| Pricing.ChargedAsShown | src/modules/bookings/bookings.service.ts:117-158 | the total charged is the sum of the nightly prices the website shows, over as many nights |
| Pricing.ChargedInShownCurrency | src/modules/bookings/bookings.service.ts:119-126 | when all nights show one currency the booking is charged in it |
| Concurrency.OversellBound | src/modules/availability/availability.service.ts:60-104 | with at most k calls of at most u units contending, a night's row never exceeds inventory by more than (k - 1) u |
| Concurrency.OversellBoundIsReached | src/modules/availability/availability.service.ts:60-104 | for every k, u and inventory some interleaving with at most k contenders reaches that bound |
| Concurrency.MissingRowIsDuplicated | src/modules/availability/availability.service.ts:90-101 | from any rows without the night, two overlapping calls leave two rows for it |
| Concurrency.OneRowForeverIff | src/modules/availability/availability.service.ts:60-104 | a night keeps at most one row through every interleaving if and only if it has its row to begin with |
| MewsFetch.Fetch | src/modules/mews-sync/mews-sync.service.ts:144-181 | whole or chunked, a fetch that ends holds by id exactly the window's reservations, customers and spaces; chunks tile the window; it fails only on a refused call |
| MewsFetch.WindowDetermines | src/modules/mews-sync/mews-sync.service.ts:162-180 | what a window holds is unique, so a chunked and a single fetch of one snapshot give equal maps |
| MewsFetch.PageExtends | src/modules/mews-sync/mews-sync.service.ts:171-180 | merging the page of the next chunk extends what is held to the longer window |
| MewsFetch.WindowsAdd | src/modules/mews-sync/mews-connector.ts:93-101 | a non-empty stay collides with a window exactly when it collides with one of its two parts |
| MewsFetch.CollidesIff | src/modules/mews-sync/mews-connector.ts:93-101 | a non-empty stay collides with a window when they have an instant in common |
| MewsFetch.MergeInto | src/modules/mews-sync/mews-sync.service.ts:152-160 | the merge loop sets each item under its id, later ones winning |
| MewsFetch.MergeGrows | src/modules/mews-sync/mews-sync.service.ts:152-160 | merging a page into an index indexes everything seen so far |
| MewsMirror.Mirror.SyncRows | src/modules/mews-sync/mews-sync.service.ts:231-301 | the loop is the fold of single upserts and counts the usable rows |
| MewsMirror.Mirror.SyncRow | src/modules/mews-sync/mews-sync.service.ts:233-300 | one turn of the loop, update or create, is one upsert; rows without reference or dates are passed over |
| MewsMirror.SyncInClosedForm | src/modules/mews-sync/mews-sync.service.ts:233-301 | per reference the last row decides dates and guest, the last resolved room the room, and the first advanced state the status |
| MewsMirror.ResyncIsIdempotent | src/modules/mews-sync/mews-sync.service.ts:233-301 | syncing the same list again changes nothing, repeated references and unusable rows included |
| MewsMirror.SyncPreserves | src/modules/mews-sync/mews-sync.service.ts:255-285 | a sync deletes nothing, never takes a room away, and leaves money, property and local arrivals as they are |
| MewsMirror.SyncMirrorsLastRow | src/modules/mews-sync/mews-sync.service.ts:238-274 | a named booking ends with the last row's days, guest, remote id and room |
| MewsMirror.StateIsMirrored | src/modules/mews-sync/mews-sync.service.ts:22-37 | a booking whose rows agree on a remote state ends with the status that word stands for, unless the house has checked the guest in or out |
| MewsMirror.SyncWritesLastRow | src/modules/mews-sync/mews-sync.service.ts:233-285 | dates, guest, remote id and room of a synced booking, in the fields of its last row, the customer and the space |
| MewsMirror.SyncCreates | src/modules/mews-sync/mews-sync.service.ts:286-299 | new bookings are exactly the usable references, in the synced property, owing nothing |
| MewsMirror.SyncOrderIsIrrelevant | src/modules/mews-sync/mews-sync.service.ts:182-301 | without shared references the processing order makes no difference |
| MewsMirror.OrderIsIrrelevantIff | src/modules/mews-sync/mews-sync.service.ts:182-301 | for rows with distinct ids, every order leaves one table if and only if no two usable rows share a reference |
| MewsMirror.SyncProperty | src/modules/mews-sync/mews-sync.service.ts:144-304 | fetch, list and mirror: a failed fetch changes nothing, otherwise the bookings are those of some fetch and order of the window and the count is of its usable reservations |
| MewsMirror.FetchingMakesNoDifference | src/modules/mews-sync/mews-sync.service.ts:162-182 | with references that differ, a chunked and a single fetch, listed in any order, leave the same bookings |
| MewsMirror.SyncIsItsRows | src/modules/mews-sync/mews-sync.service.ts:231-301 | a sync is the history of its rows, between which other calls may come |
| MewsMirror.ArrivalsAreNeverUndone | src/modules/mews-sync/mews-sync.service.ts:255-285 | through any mix of engine calls and sync rows a checked-in booking nobody cancels stays checked in or out, a checked-out one stays out, and check-in is refused on both |
| MewsMirror.RowKeepsClashFreeIff | src/modules/mews-sync/mews-sync.service.ts:276-299 | a mirrored row keeps the bookings free of clashes if and only if the overlap query of assignRoom, which the sync omits, would let it stand |
| MewsMirror.HistoryIsClashFreeIff | src/modules/mews-sync/mews-sync.service.ts:231-301 | a history of engine calls and sync rows is free of clashes throughout if and only if every row fits when it comes |
| MewsMirror.SyncIsClashFreeIff | src/modules/mews-sync/mews-sync.service.ts:231-301 | the table a sync leaves is free of clashes if and only if no two references clash in closed form |
| MewsMirror.RowKeepsPinsFitIff | src/modules/mews-sync/mews-sync.service.ts:276-299 | a mirrored row keeps every booking in a room of its property and type if and only if it brings no room or one that suits the booking it names |
| MewsMirror.HistoryPinsFitIff | src/modules/mews-sync/mews-sync.service.ts:231-301 | over histories pins fit throughout if and only if every mirrored room suits when it comes |
| MewsMirror.HistoryHousesOneParty | src/modules/mews-sync/mews-sync.service.ts:231-301 | if the rows pass the checks of assignRoom, every history ends with one fitting party per room and night |
| MewsMirror.RowConservesIff | src/modules/mews-sync/mews-sync.service.ts:255-285 | a mirrored row keeps the ledger conserved if and only if it leaves a typed booking it names the nights it holds |
| MewsMirror.HistoryConservesIff | src/modules/mews-sync/mews-sync.service.ts:231-301 | a history of engine calls and sync rows is conserved throughout if and only if none of them drifts |
| MewsMirror.SyncMayDoubleBook | src/modules/mews-sync/mews-sync.service.ts:276-285 | two active remote reservations in one room and night clash locally |
| Permissions.EffectivePermissions | src/modules/permissions/permissions.service.ts:127-147 | the loop yields the granted codes and the role's unrevoked ones, for any reading order of the rows |
| Permissions.EffectiveIff | src/modules/permissions/permissions.service.ts:142-146 | the loop's result depends on the tables alone |
| Permissions.EffectiveAfterRun | src/modules/permissions/permissions.service.ts:171-205 | from any tables, after any history of saves, overrides and boots, a code is effective exactly when the last uncleared override grants it, or there is none and the role's set, as last saved and carried through the boots since, has it |
| Permissions.SetStaysIff | src/modules/permissions/permissions.service.ts:51-81 | with no later save a role's set stays as it is throughout if and only if every boot has all its codes in the catalogue and it is not empty or the role has no defaults |
| Permissions.SaveStaysIff | src/modules/permissions/permissions.service.ts:20-29 | so a save outlives what follows under exactly that condition |
| Permissions.PermissionStore.SetRolePermissions | src/modules/permissions/permissions.service.ts:171-180 | replaces exactly the role's rows, or nothing when a code is unknown |
| Permissions.SaveWrites | src/modules/permissions/permissions.service.ts:171-180 | a save changes the rows of its role alone, to exactly the codes saved |
| Permissions.PermissionStore.SetUserOverride | src/modules/permissions/permissions.service.ts:188-206 | upserts or deletes exactly one override |
| Permissions.OverrideWrites | src/modules/permissions/permissions.service.ts:188-206 | an override leaves the code granted, revoked or neither for the user, and every other user and code alone |
| Permissions.Seed | src/modules/permissions/permissions.service.ts:30-82 | the loops of a boot are the boot step: add the catalogue, drop retired codes, give defaults to unconfigured roles |
| Permissions.DefaultsAre | src/modules/permissions/permission-catalog.ts:165-178 | what each role starts with |
| Permissions.BootWrites | src/modules/permissions/permissions.service.ts:30-82 | a boot knows every code of the catalogue, keeps the catalogue's rows and fills a role that has none of them |
| Permissions.SeedIsIdempotent | src/modules/permissions/permissions.service.ts:20-29 | seeding twice is seeding once |
| Permissions.SeedRespectsAdmins | src/modules/permissions/permissions.service.ts:51-81 | a role with a catalogue code keeps exactly its catalogue codes; any other gets its defaults |
| Faqs.FaqStore.ImportXlsx | src/modules/faqs/faqs.service.ts:163-278 | a sheet without the needed columns changes nothing; otherwise each data row is counted exactly once |
| Faqs.FaqStore.ImportParsed | src/modules/faqs/faqs.service.ts:203-277 | the row loop updates by id, creates otherwise, and skips or reports the rest |
| Faqs.RowReads | src/modules/faqs/faqs.service.ts:208-247 | what each data row is, from the texts of its six cells: blank, a complaint, or the FAQ as written |
| Faqs.RowLeaves | src/modules/faqs/faqs.service.ts:249-277 | a known id is rewritten, any other entry becomes a new FAQ as read, and each row is counted once |
| Faqs.ExportWrites | src/modules/faqs/faqs.service.ts:104-130 | an exported row has its six columns in the order of the header |
| Faqs.Column | src/modules/faqs/faqs.service.ts:165-182 | a header name is found at its last column, or not at all |
| Faqs.ExportedHeader | src/modules/faqs/faqs.service.ts:19-26 | the import finds every column of the exported header |
| Faqs.RoundTripIff | src/modules/faqs/faqs.service.ts:104-130 | importing an export leaves the table as it was, all rows updated, if and only if every FAQ is non-empty and trimmed |
| Faqs.ImportOnlyAdds | src/modules/faqs/faqs.service.ts:203-277 | an import removes no FAQ, grows the table by the created count, and accounts for every row |
| Text.IntRoundTrip | src/modules/faqs/faqs.service.ts:228-229 | an ordering survives being printed and read back |
| Orders.OrderDesk.CreateOrder | src/modules/orders/orders.service.ts:87-148 | resolves the supplier by id or email, making a missing profile, and stamps the email |
| Orders.CreateLeaves | src/modules/orders/orders.service.ts:87-148 | a new order is submitted, stamped, and bound at once to the profile named or to that of the supplier account with the email |
| Orders.OrderDesk.ListForSupplierUser | src/modules/orders/orders.service.ts:175-225 | heals the profile, claims the orphans of the email, and lists what is bound |
| Orders.OrderDesk.DispatchOrder | src/modules/orders/orders.service.ts:229-250 | marks one order in transit and keeps its stamp |
| Orders.DispatchLeaves | src/modules/orders/orders.service.ts:229-250 | dispatching puts one order in transit and changes nothing else |
| Orders.LoadListsWhatWasSent | src/modules/orders/orders.service.ts:161-225 | after any interleaving the next load lists exactly the orders sent to the profile or, naming no supplier, to the email |
| Orders.BoundOrdersNeverMove | src/modules/orders/orders.service.ts:199-216 | a bound order never changes supplier |
| Inventory.GroupedIsDirect | src/modules/inventory/inventory.service.ts:34-44 | signing grouped sums equals the signed fold over the movements |
| Inventory.Stockroom.ListItems | src/modules/inventory/inventory.service.ts:34-48 | every item's quantity is its balance, floored at zero |
| Inventory.Stockroom.ItemDetail | src/modules/inventory/inventory.service.ts:52-75 | one item's quantity is the same balance |
| Inventory.Stockroom.CreateItem | src/modules/inventory/inventory.service.ts:101-132 | the reported quantity is what the next read returns, and no other balance changes |
| Inventory.Stockroom.RecordMovement | src/modules/inventory/inventory.service.ts:143-153 | a movement of a known item changes that balance by its signed quantity; one of an unknown item is refused |
| Invoices.LinesSumToTotal | src/modules/invoices/invoices.service.ts:92-104 | exact line totals add up to the exact total |
| Invoices.StoredLinesBound | src/modules/invoices/invoices.service.ts:92-122 | stored lines and stored total differ by at most n / 2 cents |
| Invoices.StoredLinesBoundIsReached | src/modules/invoices/invoices.service.ts:92-122 | that bound is reached for every n |
| Invoices.StoredPartsBound | src/modules/invoices/invoices.service.ts:99-118 | stored subtotal plus tax is within one cent of the stored total |
| Invoices.StoredPartsBoundIsReached | src/modules/invoices/invoices.service.ts:99-118 | that cent can be missing |
| Attendance.TimeClock.In | src/modules/attendance/attendance.service.ts:14-29 | opens a punch unless one is open |
| Attendance.TimeClock.Out | src/modules/attendance/attendance.service.ts:31-53 | closes the open punch, refusing when there is none |
| Attendance.PunchRecords | src/modules/attendance/attendance.service.ts:14-53 | a clock-in opens a punch at its time, a clock-out closes that one at its time, and neither touches another entry |
| Attendance.TotalAdds | src/modules/attendance/attendance.service.ts:65-96 | the time worked is the sum of the lengths of the sessions |
| Attendance.HistoryIsPage | src/modules/attendance/attendance.service.ts:64-77 | the history is the newest two hundred entries of the window |
| Attendance.SessionsNeverOverlap | src/modules/attendance/attendance.service.ts:14-53 | a user has at most one open punch and sessions that do not overlap |
| Attendance.SummaryIsHonest | src/modules/attendance/attendance.service.ts:65-96 | time worked fits between first clock-in and last clock-out, on no more days than sessions, and the average is the nearest to time per day |

## Left out

- HTTP controllers, guards, DTO decorators, authentication, email, push, storage, payments and the Mews HTTP client: wiring or foreign code.
- The desk routes `checkIn`, `checkOut` and the raw `update`: unguarded status writes, outside the runs (see Premises).
- Hotel.Tables.CheckInSubmit: the account an email leads to, found or created, is an input; address, documents, the booker of a stay for someone else and additional guests are left out, and all incomplete forms give one error.
- Hotel.Tables.ClaimByReference: the trimmed, case-blind lookup of the reference and the comparison of emails are inputs.
- Hotel.Tables.BlockDates: notes are left out.
- Hotel.Tables.BulkUpsertCalendar: a null inventory or close-out, which an existing row refuses and a new one reads as its default, is not modelled.
- Hotel.Tables.CheckOutSubmit: models the status change and its guards; photos and feedback are left out, and the staff QR lookup is one yes-or-no input.
- Hotel.Tables.Create: the confirmation email, the booking's source and special requests are left out, as are dates that do not parse, which the DTO rejects.
- Hotel.Tables.Cancel: the cancellation reason and time are left out.
- Hotel.Tables.AssignRoom: the activity log and the returned detail are left out.
- Hotel.Tables.MoveDates: dates are whole days, as its route documents them; one that does not parse is an absent one, and what the date column makes of a time of day is not part of this model.
- CalendarView.ListsPartition: the window is in whole days and the lists are sets; their order and the room details are left out.
- Orders.OrderDesk.CreateOrder: items, amounts, notes and notifications are left out.
- Orders.OrderDesk.DispatchOrder: carrier and tracking details are left out; they leave the email stamp alone.
- Orders.OrderDesk.ListForSupplierUser: the status filter of the final query is left out.
- Inventory.Stockroom.CreateItem: names, locations and reorder levels are left out, and the initial quantity has two decimals.
- Permissions.Seed: labels, groups and ordering of the catalogue are left out.
- Attendance.TimeClock.Out: notes and coordinates are left out.
- The expansion of two-digit years by `Date.UTC`, and dates outside its range.
- Floating-point sums: money is in cents, invoices are exact rationals.
- Lower-casing outside ASCII, and conversions by `Number` other than plain decimal integers, which are a parameter of the import.
- The index of local rooms by number that a sync builds, and Mews credentials: parameters of the sync.
- Excel encoding: a sheet is a grid of cells.
- Ties in clock-in order: history lists entries in the reverse of the order they were made.
- A user's existence as a foreign key of overrides; unknown permission codes are modelled.
- `setStatus`, invoices other than `create`, paging and free-text filters: easy members.
- CMS content, careers, inquiries, waitlist, reviews, handbook, geofencing, chats, tasks, leave and photos: plain create, read, update and delete.
