# Medical center appointment validator — Dafny model

This project models the core of a small Go backend that records patients and
their visit appointments (`pkg/medical`). It covers two parts.

- **The appointment-slot validator** (`nestedLoop` and `checkSchedule`). Each
  weekday has a fixed table of allowed hours, and every minute of an allowed
  hour is accepted. An unset (zero) schedule is answered with `ErrNotFound`.
  A set schedule in an allowed hour gives the visit back unchanged. Any other
  set schedule gives the zero `Visit{}` and *no* error.
- **The check-then-create step of `PostVisit`.** It builds a fresh record that
  copies only `Patient` and `Schedule` from the checked visit, then creates it.
  It is modelled over an abstract sequence of the records handed to a
  successful `Create`, as `PostVisit` built them.
- **The transport's error handling.** `codeFrom` maps an error to 404, 400 or
  500. `encodeError` writes that status and a body `{"error": <text>}`.
  `encodeResponse` chooses between that error reply and a plain JSON reply.

Modules:

- `Wrappers` (`wrappers.dfy`): `Option`, which stands for Go's nil-or-value `error`.
- `Clock` (`clock.dfy`): `time.Time` reduced to what the validator reads from it.
  `Time` is either `Zero` or `At(day, hour, minute)`, with Sunday = 0 as in Go's
  `time.Weekday`. For the zero time, the accessors report Monday 00:00, which is
  Go's zero instant (January 1 of year 1, UTC).
- `Medical` (`medical.dfy`): `Patient`, `Visit` and their zero values, and the
  error kinds. It also holds the validator and `PostVisit`.
- `Transport` (`transport.dfy`): `codeFrom`, `encodeError`, `encodeResponse`,
  and lemmas about the whole `POST /medical/` path.

The hour tables in `HourTable` are checked against `OpenSlot`, an independent
description of the opening hours written as windows of consecutive hours:

| day | hours |
|---|---|
| Monday | 8–10, 14–15, 20–21 |
| Tuesday | 10–11, 15–17 |
| Wednesday | 13–17 |
| Thursday | 8–10, 14–17 |
| Friday | 14–17 |
| Saturday | 8–10 |
| Sunday | 20–22 |

Things the model shows about the code as written:

- An out-of-table slot is not rejected. `PostVisit` hands an all-zero record
  to `Create`. When `Create` succeeds, `PostVisit` reports success
  (`UnmatchedSlotStoresZeroRecord`) and over HTTP the client sees a success
  reply (`UnmatchedSlotRepliesSuccess`). When `Create` fails, its error is
  returned and the store is unchanged.
- The record that `PostVisit` hands to `Create` always has `ID` 0 and
  `PatientID` 0. The database may assign both when it saves the record.
- The code as written does not reject an unmatched slot with an error. It
  does not look the patient up before creating a visit, and it does not
  reject duplicate patients. The model follows the code on all three points.

## Model

| member | source | states |
|---|---|---|
| `Medical.Range` | pkg/medical/service.go:72-75 | the minute list has 60 entries and entry i is i |
| `Medical.RangeHoldsExactly` | pkg/medical/service.go:72-75 | the filled list of length n holds exactly the integers 0 to n-1 |
| `Medical.Minutes` | pkg/medical/service.go:72-75 | the minute list holds exactly the minutes 0–59 |
| `Medical.ScanMinutes` | pkg/medical/service.go:53-58 | the inner loop finds a match iff the schedule's hour is the given hour and its minute occurs in the minute list |
| `Medical.NestedLoop` | pkg/medical/service.go:50-61 | nestedLoop returns the visit iff its hour is in the hour list and its minute is in the minute list, else the zero Visit |
| `Medical.NestedLoopOrderIndependent` | pkg/medical/service.go:50-61 | nestedLoop's result depends only on which values the lists contain, not on their order or on duplicates |
| `Medical.HourTable` | pkg/medical/service.go:69-119 | an hour is in a weekday's hour table iff it lies in that weekday's opening windows |
| `Medical.CheckSchedule` | pkg/medical/service.go:63-121 | error iff the schedule is zero, and then the result is (Visit{}, ErrNotFound); otherwise no error, with the visit unchanged when its hour is open on its weekday and Visit{} when it is not |
| `Medical.CheckScheduleKeepsOrZeroes` | pkg/medical/service.go:50-68 | checkSchedule never edits fields: its visit is the input or the zero Visit |
| `Medical.MinuteNeverMatters` | pkg/medical/service.go:72-76 | two set schedules with the same weekday and hour are both accepted or both rejected, whatever their minutes |
| `Medical.CheckScheduleRecheck` | pkg/medical/service.go:63-68 | an accepted visit passes again unchanged; the zero Visit returned for an unmatched slot is rejected with ErrNotFound if checked again |
| `Medical.PostVisit` | pkg/medical/service.go:123-138 | unset schedule: returns ErrNotFound and the store is unchanged; a failed Create returns that error and the store is unchanged; otherwise exactly one record is appended and earlier records are kept. The record handed to Create has ID 0 and PatientID 0. It copies Patient and Schedule for an open slot and is all-zero for an unmatched one |
| `Medical.UnmatchedSlotStoresZeroRecord` | pkg/medical/service.go:126-137 | when Create succeeds, an out-of-table slot returns no error and appends exactly the zero Visit |
| `Medical.OpenSlotStoresDetail` | pkg/medical/service.go:130-137 | when Create succeeds, an open slot returns no error and appends exactly Visit{Patient: v.Patient, Schedule: v.Schedule}, and nothing else changes |
| `Medical.PostAllCounts` | pkg/medical/service.go:123-137 | serialised PostVisit calls, every Create succeeding, keep the earlier records and add one record per visit with a set schedule, every record handed to Create having zero IDs |
| `Transport.CodeFrom` | pkg/medical/transport.go:114-123 | 404 iff ErrNotFound; 400 iff ErrAlreadyExists or ErrInconsistentIDs; 500 iff any other error |
| `Transport.CodeFromRange` | pkg/medical/transport.go:114-123 | codeFrom is total with results in {400, 404, 500}, and ErrBadRouting maps to 500 |
| `Transport.EncodeError` | pkg/medical/transport.go:103-112 | requires a non-nil error. Writes the JSON content type and status codeFrom(err), with a body whose only key is "error", holding the error's text |
| `Transport.EncodeResponse` | pkg/medical/transport.go:92-101 | a response with a business error is written by encodeError and reports no error; any other response is written as JSON with no explicit status and returns the encoder's result |
| `Transport.ErrorStatusIffBusinessError` | pkg/medical/transport.go:92-101 | a status is written explicitly iff the response carries a business error, and that status is at least 400 |
| `Transport.UnsetScheduleReplies404` | pkg/medical/transport.go:93-97 | POST of a visit with an unset schedule leaves the store unchanged and replies 404 with {"error": "not found"} |
| `Transport.UnmatchedSlotRepliesSuccess` | pkg/medical/transport.go:92-101 | when Create succeeds, POST of an out-of-table slot appends the zero record (pkg/medical/service.go:126-137), and encodeResponse replies with no error status |

## Left out

- The calendar behind `time.Time` (time zones, `Weekday`/`Hour`/`Minute`/`IsZero`): the weekday, hour and minute are abstract inputs, and the zero time is a separate constructor.
- `db.Create` (gorm): its outcome is a parameter of `PostVisit`. A success appends the record to the abstract store. The model does not cover auto-assigned primary keys or gorm's saving of the embedded `Patient` association.
- The JSON encoder used on the success path: its result is a parameter of `EncodeResponse`, and the body is kept abstract as the response it encodes.
- `GetVisit`, `GetPatient` and `PostPatient`: thin wrappers over gorm queries. The status of their not-found case depends on gorm's own error, which is not one of this package's errors.
- The `sync.RWMutex`: it only serialises calls. `PostAll` models the resulting one-after-another order of `PostVisit` calls.
- The logging middleware: logger output, wall-clock durations and log rows written to the database.
- The go-kit endpoint wiring: `Response` models its four response types, and each one carries the service call's error.
- HTTP routing with gorilla/mux and the request decoders, including their `ErrBadRouting` return.
- `pkg/database` (raw SQL against a different revision of the types) and the process bootstrap in `cmd/medical`.
- Go's fixed-width `int` for IDs and age: the model uses unbounded integers, because nothing in the core does arithmetic on them.
