# Query resolvers of a small GraphQL-over-HTTP service

This project models the logic that the service writes itself: the root
`Query` resolvers and the domain error type they report. It is written in
Dafny and proved with the Dafny verifier.

- `Today` returns the current instant wrapped in the GraphQL `Time` scalar.
- `DistanceOfTimeToNowInWords(from)` returns `time.Since(from) / time.Second`
  printed with `%d` and followed by ` second(s)`.
- `TestError` always returns an empty string together with a
  `resolverNotFoundError{Code: "NotFound", Message: "This is not the droid you are looking for"}`.
- That error has a text form, `Error()` (`Error [<Code>]: <Message>`), and a
  two-key map, `Extensions()` (`code`, `message`).

The wall clock is a parameter. An instant is an integer count of nanoseconds,
and `now` is passed to the resolvers by the caller.

Modules:
- `Wrappers` (`wrappers.dfy`) holds `Option`.
- `GoFmt` (`go_fmt.dfy`) gives Go's `%d` rendering of an integer, `FormatInt`, and its inverse, `ParseInt`.
- `GoTime` (`go_time.dfy`) gives the Go time arithmetic the resolvers use:
  - `Sub`/`Since` saturate to the int64 `Duration` range, as `time.Time.Sub` does.
  - `QuoSecond` is Go's truncating integer division of a Duration by `time.Second`. Dafny's `/` is Euclidean.
- `Query` (`query.dfy`) holds the resolvers, the error type and their properties.

The count is truncated toward zero, not floored, as Go's integer division does
at main.go:39. `Query.DistanceNotFloored` relates the two for every
`now - from` that fits a Duration. For a future `from` that is not a whole number of seconds away, the
count is one more than the floor; for example, 1.5 s in the future gives `-1`,
not `-2`.

## Model

| member | source | states |
|---|---|---|
| `GoFmt.NatDigits` | main.go:39 | the `%d` digits of a natural number: non-empty, all digits, no leading zero, and "0" exactly for zero |
| `GoFmt.FormatInt` | main.go:39 | `%d` of an integer is a well-formed decimal string (optional '-', no "-0"), and it starts with '-' exactly when the integer is negative |
| `GoFmt.ParseInt` | main.go:39 | the reader of `%d` output fails exactly on strings that are not an optional '-' followed by at least one digit |
| `GoFmt.FormatParse` | main.go:39 | parsing the `%d` rendering of any integer gives that integer back |
| `GoFmt.ParseFormat` | main.go:39 | every well-formed decimal string is the `%d` rendering of the integer it denotes |
| `GoFmt.FormatInjective` | main.go:39 | distinct integers render as distinct strings |
| `GoTime.Sub` | main.go:39 | `t.Sub(u)` is the nanosecond difference when it fits an int64 Duration, and otherwise the nearest Duration bound |
| `GoTime.Since` | main.go:39 | `time.Since(t)` with the clock as `now` is `Sub(now, t)`, always within the Duration range |
| `GoTime.QuoSecond` | main.go:39 | `d / time.Second` leaves a remainder smaller than one second, with the sign of `d` when it is non-zero (truncation toward zero) |
| `GoTime.QuoSecondUnique` | main.go:39 | exactly one quotient meets those two conditions |
| `GoTime.QuoSecondNegate` | main.go:39 | negating the Duration negates the whole-second count |
| `GoTime.QuoSecondMonotone` | main.go:39 | a longer Duration never gives fewer whole seconds |
| `Query.Extensions` | main.go:23-28 | the extensions map has exactly the keys "code" and "message", holding Code and Message |
| `Query.Error` | main.go:19-21 | the text is "Error [", then Code, then "]: ", then Message, with nothing else |
| `Query.ErrorParse` | main.go:19-21 | when Code holds no "]: ", the text `Error [<Code>]: <Message>` reads back as the same error (the reader splits at the first "]: ") |
| `Query.ErrorAmbiguous` | main.go:19-21 | a Code holding "]: " can make two different errors print the same text, so that restriction cannot be dropped |
| `Query.ExtensionsRoundTrip` | main.go:23-28 | the extensions map reads back as the error it came from |
| `Query.ErrorFromExtensions` | main.go:19-28 | `Error()` is "Error [" + extensions["code"] + "]: " + extensions["message"] |
| `Query.Today` | main.go:32-35 | `Today` wraps the current instant unchanged |
| `Query.DistanceSeconds` | main.go:37-40 | the count is `time.Since(from)` truncated toward zero to whole seconds, and it lies within ±9223372036 |
| `Query.TestError` | main.go:42-47 | the value is "" and the error is always Code "NotFound", Message "This is not the droid you are looking for", with extensions holding the same two strings |
| `Query.DistanceTruncates` | main.go:39 | while `now - from` fits a Duration, the count rounds down for a past `from` and up for a future one |
| `Query.DistanceNotFloored` | main.go:39 | while `now - from` fits a Duration, the count equals the floor of the seconds except for a future `from` that is not a whole number of seconds away, where it is the floor plus one |
| `Query.DistancePositiveWhenPast` | main.go:39 | `from` at least a second in the past gives a positive count |
| `Query.DistanceNegativeWhenFuture` | main.go:39 | `from` at least a second in the future gives a negative count |
| `Query.DistanceZeroWithinASecond` | main.go:39 | within a second either way the count is 0 and the words are "0 second(s)" |
| `Query.DistanceAntisymmetric` | main.go:39 | swapping `now` and `from` negates the count, including at the Duration bounds |
| `Query.DistanceMonotoneInFrom` | main.go:39 | for a fixed `now`, a later `from` gives a count that is no larger |
| `Query.DistanceMonotoneInNow` | main.go:39 | for a fixed `from`, a later `now` gives a count that is no smaller |
| `Query.DistanceOfTimeToNowInWords` | main.go:37-40 | the words end in " second(s)", and the text before it is a `%d`-shaped decimal (no leading zeros, no "-0") that parses to the whole-second count of `Query.DistanceSeconds` |
| `Query.WordsParse` | main.go:37-40 | any string ending in " second(s)" whose prefix is `%d`-shaped and parses to the count is exactly the resolver's output, so the count alone fixes the words |
| `Query.WordsInjective` | main.go:37-40 | two outputs are equal exactly when their counts are equal |
| `Query.TodayIsZeroSecondsAgo` | main.go:32-40 | the distance from `Today(now)` to that same `now` is "0 second(s)" |

## Left out

- HTTP transport and CORS (main.go:49-61, main.go:82-107): router, middleware, the `/query` handler and `r.Run` are framework I/O.
- Schema parsing and execution (main.go:63-80, main.go:97): `graphql.MustParseSchema` and `schema.Exec` belong to the graphql-go library. That covers name-based resolver binding, the response envelope and partial-success semantics.
- The `graphql.Time` ISO-8601 codec (main.go:34, main.go:37): it is library code. An instant here is an integer nanosecond count.
- The wall clock (`time.Now`, main.go:34, main.go:39): it is the parameter `now`. The monotonic-clock reading is not modelled separately. It saturates the same way as the wall-clock path.
- The malformed-body path (main.go:89-91): `log.Fatal` ends the process, so the `AbortWithError` after it never runs. This is process-level behaviour.
- testInt.go: a scratch program that only prints values. It has no logic.
- `Query.ErrorParse`: reading the text form back is proved only for codes that hold no "]: ". Such a code really is ambiguous (`Query.ErrorAmbiguous`), so no reader can recover every error from `Error()`.
- Go strings are byte sequences; the model's `string` is a sequence of characters. Nothing modelled depends on the difference, because `Error()` and the words only concatenate strings and print ASCII digits.
- `Extensions()` returns `map[string]interface{}`; the model uses `map<string, string>`, because both values are strings.
