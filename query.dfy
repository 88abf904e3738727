/**
 * The resolvers of the root `Query` type and the domain error they report.
 * The wall clock is the parameter `now`; instants are nanosecond counts.
 */
module Query {
  import opened Wrappers
  import opened GoFmt
  import opened GoTime

  /** The structured error `{Code, Message}` a resolver returns in Go's `error` slot. */
  datatype ResolverNotFoundError = ResolverNotFoundError(Code: string, Message: string)

  const ErrorPrefix: string := "Error ["
  const ErrorSeparator: string := "]: "

  /**
   * `Error()`: the text form `Error [<Code>]: <Message>`. The contract splits
   * the text into its four segments: once `Code` is known, `Message` is the
   * rest of the text after the "]: " that follows it.
   */
  function Error(e: ResolverNotFoundError): (s: string)
    ensures var c := |ErrorPrefix| + |e.Code|;
      |s| == c + |ErrorSeparator| + |e.Message| &&
      s[..|ErrorPrefix|] == ErrorPrefix && s[|ErrorPrefix|..c] == e.Code &&
      s[c..c + |ErrorSeparator|] == ErrorSeparator && s[c + |ErrorSeparator|..] == e.Message
  {
    ErrorPrefix + e.Code + ErrorSeparator + e.Message
  }

  /** `Extensions()`: the two-entry payload surfaced beside the error. */
  function Extensions(e: ResolverNotFoundError): (m: map<string, string>)
    ensures m.Keys == {"code", "message"}
    ensures m["code"] == e.Code && m["message"] == e.Message
  {
    map["code" := e.Code, "message" := e.Message]
  }

  /** `s` holds the separator "]: " at position `i`. */
  predicate SeparatorAt(s: string, i: nat) {
    i + 3 <= |s| && s[i] == ']' && s[i + 1] == ':' && s[i + 2] == ' '
  }

  /** The position of the first "]: " in `s`, or `|s|` when there is none. */
  function FindSeparator(s: string): (i: nat)
    ensures i <= |s|
    ensures i < |s| ==> SeparatorAt(s, i)
    ensures forall j :: 0 <= j < i ==> !SeparatorAt(s, j)
    decreases |s|
  {
    if |s| < 3 then |s|
    else if SeparatorAt(s, 0) then 0
    else
      var k := FindSeparator(s[1..]);
      assert forall j :: 1 <= j < 1 + k ==> !SeparatorAt(s[1..], j - 1) && (SeparatorAt(s, j) ==> SeparatorAt(s[1..], j - 1));
      1 + k
  }

  /** Reads the text form back: the code runs up to the first "]: ". */
  function ParseError(s: string): Option<ResolverNotFoundError> {
    if |s| < |ErrorPrefix| || s[..|ErrorPrefix|] != ErrorPrefix then None
    else
      var rest := s[|ErrorPrefix|..];
      var i := FindSeparator(rest);
      if i == |rest| then None
      else Some(ResolverNotFoundError(rest[..i], rest[i + |ErrorSeparator|..]))
  }

  /** The extensions payload read back as an error value. */
  function FromExtensions(m: map<string, string>): Option<ResolverNotFoundError> {
    if m.Keys == {"code", "message"} then Some(ResolverNotFoundError(m["code"], m["message"])) else None
  }

  /** When the code holds no "]: ", `Error()` keeps both fields recoverable. */
  lemma ErrorParse(e: ResolverNotFoundError)
    requires forall j :: 0 <= j < |e.Code| ==> !SeparatorAt(e.Code, j)
    ensures ParseError(Error(e)) == Some(e)
  {
    var s := Error(e);
    assert s[..|ErrorPrefix|] == ErrorPrefix;
    var rest := s[|ErrorPrefix|..];
    assert rest == e.Code + (ErrorSeparator + e.Message);
    SeparatorFirst(e.Code, ErrorSeparator + e.Message);
    var i := |e.Code|;
    assert rest[..i] == e.Code;
    assert rest[i + |ErrorSeparator|..] == e.Message;
  }

  /**
   * Gluing a separator-free `a` in front of a text that starts with "]: "
   * cannot create an earlier "]: ", not even one straddling the seam.
   */
  lemma {:induction false} SeparatorFirst(a: string, b: string)
    requires forall j :: 0 <= j < |a| ==> !SeparatorAt(a, j)
    requires SeparatorAt(b, 0)
    ensures FindSeparator(a + b) == |a|
    decreases |a|
  {
    var s := a + b;
    if |a| > 0 {
      assert !SeparatorAt(s, 0) by {
        if |a| >= 3 {
          assert !SeparatorAt(a, 0);
        } else {
          assert s[|a|] == ']';
        }
      }
      assert s[1..] == a[1..] + b;
      forall j | 0 <= j < |a[1..]|
        ensures !SeparatorAt(a[1..], j)
      {
        assert !SeparatorAt(a, j + 1);
      }
      SeparatorFirst(a[1..], b);
    }
  }

  /** A code that holds "]: " can make two different errors print the same text. */
  lemma ErrorAmbiguous()
    ensures ResolverNotFoundError("a]: b", "c") != ResolverNotFoundError("a", "b]: c")
    ensures Error(ResolverNotFoundError("a]: b", "c")) == Error(ResolverNotFoundError("a", "b]: c"))
  {
  }

  /** The extensions payload determines the error it came from. */
  lemma ExtensionsRoundTrip(e: ResolverNotFoundError)
    ensures FromExtensions(Extensions(e)) == Some(e)
  {
  }

  /** The text form and the extensions payload carry the same two fields. */
  lemma ErrorFromExtensions(e: ResolverNotFoundError)
    ensures Error(e) == ErrorPrefix + Extensions(e)["code"] + ErrorSeparator + Extensions(e)["message"]
  {
  }

  /** A value of the GraphQL `Time` scalar, wrapping an instant. */
  datatype GraphqlTime = GraphqlTime(Time: Instant)

  /** `Today`: the current instant, wrapped unchanged. */
  function Today(now: Instant): (t: GraphqlTime)
    ensures t.Time == now
  {
    GraphqlTime(now)
  }

  const SecondsSuffix: string := " second(s)"

  /** The smallest and largest whole-second counts a Duration can hold. */
  const MinSeconds: int := -9_223_372_036
  const MaxSeconds: int := 9_223_372_036

  /** `time.Since(from) / time.Second`: whole seconds from `from` to `now`, truncated toward zero. */
  function DistanceSeconds(now: Instant, from: Instant): (n: int)
    ensures var d := Since(now, from);
      Abs(d - n * Second) < Second && (d - n * Second == 0 || (d - n * Second > 0 <==> d > 0))
    ensures MinSeconds <= n <= MaxSeconds
  {
    QuoSecond(Since(now, from))
  }

  /** `DistanceOfTimeToNowInWords`: the count as `%d`, then " second(s)". */
  function DistanceOfTimeToNowInWords(now: Instant, from: GraphqlTime): (s: string)
    ensures |s| > |SecondsSuffix| && s[|s| - |SecondsSuffix|..] == SecondsSuffix
    ensures IsIntDecimal(s[..|s| - |SecondsSuffix|])
    ensures ParseInt(s[..|s| - |SecondsSuffix|]) == Some(DistanceSeconds(now, from.Time))
  {
    var n := DistanceSeconds(now, from.Time);
    FormatParse(n);
    var s := FormatInt(n) + SecondsSuffix;
    assert s[..|s| - |SecondsSuffix|] == FormatInt(n);
    assert s[|s| - |SecondsSuffix|..] == SecondsSuffix;
    s
  }

  /** `TestError`: no value, and always the same NotFound error. */
  function TestError(): (r: (string, Option<ResolverNotFoundError>))
    ensures r.0 == ""
    ensures r.1.Some? && r.1.value.Code == "NotFound"
    ensures r.1.value.Message == "This is not the droid you are looking for"
    ensures Extensions(r.1.value) == map["code" := "NotFound", "message" := "This is not the droid you are looking for"]
  {
    ("", Some(ResolverNotFoundError("NotFound", "This is not the droid you are looking for")))
  }

  /** Strips the " second(s)" suffix and reads the count in front of it. */
  function ParseWords(s: string): Option<int> {
    if |s| < |SecondsSuffix| || s[|s| - |SecondsSuffix|..] != SecondsSuffix then None
    else ParseInt(s[..|s| - |SecondsSuffix|])
  }

  // ---- Properties of DistanceOfTimeToNowInWords ----

  /**
   * While the difference fits a Duration, the count is the nanosecond
   * difference divided by 10^9 and truncated toward zero: rounded down for a
   * past `from`, rounded up for a future one.
   */
  lemma DistanceTruncates(now: Instant, from: Instant)
    requires IsDuration(now - from)
    ensures var n := DistanceSeconds(now, from);
      (now - from >= 0 ==> n * Second <= now - from < (n + 1) * Second) &&
      (now - from < 0 ==> (n - 1) * Second < now - from <= n * Second)
  {
  }

  /**
   * Truncation, not flooring. Dafny's `/` by a positive divisor floors. The
   * count agrees with the floor for a past `from` and for a future `from` a
   * whole number of seconds away; for any other future `from` it is one more.
   */
  lemma DistanceNotFloored(now: Instant, from: Instant)
    requires IsDuration(now - from)
    ensures now - from >= 0 || (now - from) % Second == 0 ==> DistanceSeconds(now, from) == (now - from) / Second
    ensures now - from < 0 && (now - from) % Second != 0 ==> DistanceSeconds(now, from) == (now - from) / Second + 1
  {
  }

  lemma DistancePositiveWhenPast(now: Instant, from: Instant)
    requires now - from >= Second
    ensures DistanceSeconds(now, from) > 0
  {
  }

  lemma DistanceNegativeWhenFuture(now: Instant, from: Instant)
    requires from - now >= Second
    ensures DistanceSeconds(now, from) < 0
  {
  }

  lemma DistanceZeroWithinASecond(now: Instant, from: Instant)
    requires -Second < now - from < Second
    ensures DistanceSeconds(now, from) == 0
    ensures DistanceOfTimeToNowInWords(now, GraphqlTime(from)) == "0 second(s)"
  {
  }

  /** Swapping the two instants negates the count, saturation included. */
  lemma DistanceAntisymmetric(now: Instant, from: Instant)
    ensures DistanceSeconds(from, now) == -DistanceSeconds(now, from)
  {
    var d := now - from;
    if IsDuration(d) && IsDuration(-d) {
      QuoSecondNegate(d);
    } else {
      assert QuoSecond(MaxDuration) == MaxSeconds;
      assert QuoSecond(MinDuration) == MinSeconds;
    }
  }

  /** For a fixed `now`, a later `from` never gives a larger count. */
  lemma DistanceMonotoneInFrom(now: Instant, from1: Instant, from2: Instant)
    requires from1 <= from2
    ensures DistanceSeconds(now, from2) <= DistanceSeconds(now, from1)
  {
    QuoSecondMonotone(Since(now, from2), Since(now, from1));
  }

  /** For a fixed `from`, a later `now` never gives a smaller count. */
  lemma DistanceMonotoneInNow(now1: Instant, now2: Instant, from: Instant)
    requires now1 <= now2
    ensures DistanceSeconds(now1, from) <= DistanceSeconds(now2, from)
  {
    QuoSecondMonotone(Since(now1, from), Since(now2, from));
  }

  /**
   * The words are the only string that ends in " second(s)", has a `%d`-shaped
   * prefix, and reads back as the count: the output is fixed by the count alone.
   */
  lemma WordsParse(now: Instant, from: GraphqlTime, t: string)
    requires |t| >= |SecondsSuffix| && IsIntDecimal(t[..|t| - |SecondsSuffix|])
    requires ParseWords(t) == Some(DistanceSeconds(now, from.Time))
    ensures t == DistanceOfTimeToNowInWords(now, from)
  {
    var n := DistanceSeconds(now, from.Time);
    var p := t[..|t| - |SecondsSuffix|];
    ParseFormat(p);
    assert FormatInt(n) == p;
    var s := DistanceOfTimeToNowInWords(now, from);
    assert s[..|s| - |SecondsSuffix|] == FormatInt(n);
    assert t == p + t[|t| - |SecondsSuffix|..];
    assert s == s[..|s| - |SecondsSuffix|] + s[|s| - |SecondsSuffix|..];
  }

  /** Words that differ come from counts that differ, and conversely. */
  lemma WordsInjective(now1: Instant, from1: GraphqlTime, now2: Instant, from2: GraphqlTime)
    ensures DistanceOfTimeToNowInWords(now1, from1) == DistanceOfTimeToNowInWords(now2, from2)
      <==> DistanceSeconds(now1, from1.Time) == DistanceSeconds(now2, from2.Time)
  {
  }

  /** The instant `Today` reports is zero seconds from that same `now`. */
  lemma TodayIsZeroSecondsAgo(now: Instant)
    ensures DistanceOfTimeToNowInWords(now, Today(now)) == "0 second(s)"
  {
    DistanceZeroWithinASecond(now, now);
  }
}
