/** Splitting a duration into hours, minutes and seconds, and reading one typed by a user. */
module Durations {
  import opened Types
  import opened Text

  // ---------------------------------------------------------------- hours, minutes, seconds

  datatype HourMinuteSecond = HourMinuteSecond(hours: nat, minutes: nat, seconds: nat)

  /** The source takes remainders by the part already split off rather than by 60. */
  function Split(duration: nat): HourMinuteSecond {
    var minutes := duration / 60;
    var hours := minutes / 60;
    var minutesLeft := if hours == 0 then minutes else minutes % (hours * 60);
    var secondsAbove60 := (hours * 60 + minutesLeft) * 60;
    HourMinuteSecond(hours, minutesLeft, if secondsAbove60 == 0 then duration else duration % secondsAbove60)
  }

  lemma RemainderOfSum(a: nat, b: nat)
    requires b < a
    ensures (a + b) % a == b
  {
    assert (a + b) / a == 1 by {
      assert a + b == 1 * a + b;
    }
  }

  /** Those remainders are the usual ones. */
  lemma SplitIsExact(duration: nat)
    ensures var r := Split(duration);
            r.minutes < 60 && r.seconds < 60 && 3600 * r.hours + 60 * r.minutes + r.seconds == duration
  {
    var minutes := duration / 60;
    var hours := minutes / 60;
    if hours > 0 {
      RemainderOfSum(hours * 60, minutes % 60);
      assert minutes == hours * 60 + minutes % 60;
    }
    if minutes > 0 {
      RemainderOfSum(minutes * 60, duration % 60);
      assert duration == minutes * 60 + duration % 60;
    }
  }

  // ---------------------------------------------------------------- reading a duration

  /** `Panic` is an unwrapped parse error, an overflow check, or an overflowing `Duration` addition. */
  datatype Outcome<T> = Ok(value: T) | InvalidCharacter(c: char) | BadStringSlice | Panic

  /** A number, its unit, and where the text goes on behind it. */
  datatype Slice = Slice(number: nat, unit: char, remaining: nat)

  /** The end of the digits which start at `i`. */
  function DigitsEnd(s: string, i: nat): (n: nat)
    requires i <= |s|
    ensures i <= n <= |s|
    decreases |s| - i
  {
    if i < |s| && IsDigit(s[i]) then DigitsEnd(s, i + 1) else i
  }

  /**
   The source's slices are views of one text, so a slice is a position here.  The number is parsed
   before the unit is looked at, and its parse error is not handled.
   */
  function SliceUntilUnit(s: string, i: nat): (r: Outcome<Slice>)
    requires i <= |s|
    ensures r.Ok? ==> i + 1 < r.value.remaining <= |s|
  {
    var n := DigitsEnd(s, i);
    if n == i || Value(s, i, n) > U64_MAX then Panic
    else if n == |s| then BadStringSlice
    else Ok(Slice(Value(s, i, n), s[n], n + 1))
  }

  predicate IsUnit(unit: char) {
    unit == 'h' || unit == 'm' || unit == 's'
  }

  function InSeconds(number: nat, unit: char): (r: nat)
    ensures number <= r
  {
    if unit == 'h' then number * 3600 else if unit == 'm' then number * 60 else number
  }

  /** The 64-bit product: checked in a debug build, wrapped in a release build. */
  function Product(number: nat, unit: char, checked: bool): Outcome<nat> {
    var exact := InSeconds(number, unit);
    if exact <= U64_MAX then Ok(exact) else if checked then Panic else Ok(exact % (U64_MAX + 1))
  }

  /** What is read from the text behind position `i`, with `duration` read already. */
  function ParseAt(s: string, i: nat, duration: nat, checked: bool): Outcome<nat>
    requires i <= |s|
    decreases |s| - i
  {
    if i == |s| then Ok(duration)
    else
      match SliceUntilUnit(s, i)
      case InvalidCharacter(c) => InvalidCharacter(c)
      case BadStringSlice => BadStringSlice
      case Panic => Panic
      case Ok(slice) =>
        if !IsUnit(slice.unit) then InvalidCharacter(slice.unit)
        else match Product(slice.number, slice.unit, checked)
             case Ok(seconds) =>
               if duration + seconds > U64_MAX then Panic else ParseAt(s, slice.remaining, duration + seconds, checked)
             case _ => Panic
  }

  function Parse(s: string, checked: bool): Outcome<nat> {
    ParseAt(s, 0, 0, checked)
  }

  /** The loop of the source: slice off one number and unit at a time and add it up. */
  method ParseTimeInput(input: string, checked: bool) returns (r: Outcome<nat>)
    ensures r == Parse(input, checked)
  {
    var rest: nat := 0;
    var duration: nat := 0;
    while rest < |input|
      invariant rest <= |input|
      invariant ParseAt(input, rest, duration, checked) == Parse(input, checked)
    {
      match SliceUntilUnit(input, rest) {
        case InvalidCharacter(c) => return InvalidCharacter(c);
        case BadStringSlice => return BadStringSlice;
        case Panic => return Panic;
        case Ok(slice) =>
          if !IsUnit(slice.unit) {
            return InvalidCharacter(slice.unit);
          }
          var seconds := Product(slice.number, slice.unit, checked);
          if !seconds.Ok? || duration + seconds.value > U64_MAX {
            return Panic;
          }
          duration := duration + seconds.value;
          rest := slice.remaining;
      }
    }
    return Ok(duration);
  }

  // ---------------------------------------------------------------- the grammar

  /** Behind position `i` come digits up to `n` and then a unit, worth `seconds`. */
  ghost predicate Entry(s: string, i: nat, n: nat, seconds: nat) {
    && i < n < |s|
    && Digits(s, i, n)
    && IsUnit(s[n])
    && seconds == InSeconds(Value(s, i, n), s[n])
  }

  /** The text behind position `i` is a sequence of numbers with units which add up to `duration`. */
  ghost predicate DenotesAt(s: string, i: nat, duration: nat)
    requires i <= |s|
    decreases |s| - i
  {
    if i == |s| then duration == 0
    else exists n: nat, seconds: nat :: Entry(s, i, n, seconds) && seconds <= duration && DenotesAt(s, n + 1, duration - seconds)
  }

  ghost predicate Denotes(s: string, duration: nat) {
    DenotesAt(s, 0, duration)
  }

  lemma {:induction false} DigitsEndThere(s: string, i: nat, k: nat)
    requires Digits(s, i, k)
    ensures Digits(s, i, DigitsEnd(s, k))
    ensures DigitsEnd(s, k) < |s| ==> !IsDigit(s[DigitsEnd(s, k)])
    decreases |s| - k
  {
    if k < |s| && IsDigit(s[k]) {
      DigitsEndThere(s, i, k + 1);
    }
  }

  /** The digits in front of a unit are exactly the leading digits. */
  lemma EntryIsLeading(s: string, i: nat, n: nat, seconds: nat)
    requires Entry(s, i, n, seconds)
    ensures n == DigitsEnd(s, i)
  {
    var end := DigitsEnd(s, i);
    DigitsEndThere(s, i, i);
    DigitsStop(s, i, end, n);
    if end < |s| {
      DigitsStop(s, i, n, end);
    }
  }

  /** A first entry which fits is taken off and counted, whatever the build. */
  lemma EntryIsRead(s: string, i: nat, n: nat, seconds: nat, duration: nat, checked: bool)
    requires Entry(s, i, n, seconds) && duration + seconds <= U64_MAX
    ensures ParseAt(s, i, duration, checked) == ParseAt(s, n + 1, duration + seconds, checked)
  {
    EntryIsLeading(s, i, n, seconds);
  }

  /** With overflow checks a reading which succeeds starts with an entry which fits. */
  lemma ReadIsEntry(s: string, i: nat, duration: nat) returns (n: nat, seconds: nat)
    requires i < |s| && ParseAt(s, i, duration, true).Ok?
    ensures Entry(s, i, n, seconds) && duration + seconds <= U64_MAX
    ensures ParseAt(s, n + 1, duration + seconds, true) == ParseAt(s, i, duration, true)
  {
    n := DigitsEnd(s, i);
    DigitsEndThere(s, i, i);
    seconds := InSeconds(Value(s, i, n), s[n]);
  }

  lemma {:induction false} DenotedIsRead(s: string, i: nat, duration: nat, end: nat, checked: bool)
    requires i <= |s| && duration <= end <= U64_MAX && DenotesAt(s, i, end - duration)
    ensures ParseAt(s, i, duration, checked) == Ok(end)
    decreases |s| - i
  {
    if i < |s| {
      var n: nat, seconds: nat :|
        Entry(s, i, n, seconds) && seconds <= end - duration && DenotesAt(s, n + 1, end - duration - seconds);
      EntryIsRead(s, i, n, seconds, duration, checked);
      DenotedIsRead(s, n + 1, duration + seconds, end, checked);
    }
  }

  lemma {:induction false} ReadIsDenoted(s: string, i: nat, duration: nat, end: nat)
    requires i <= |s| && ParseAt(s, i, duration, true) == Ok(end) && duration <= U64_MAX
    ensures duration <= end <= U64_MAX && DenotesAt(s, i, end - duration)
    decreases |s| - i
  {
    if i < |s| {
      var n, seconds := ReadIsEntry(s, i, duration);
      ReadIsDenoted(s, n + 1, duration + seconds, end);
      assert DenotesAt(s, n + 1, end - duration - seconds);
    }
  }

  /**
   With overflow checks, a text is accepted as a duration exactly when it is a sequence of numbers
   with units that add up to it within 64 bits.
   */
  lemma AcceptedIffWellFormed(s: string, duration: nat)
    ensures Parse(s, true) == Ok(duration) <==> Denotes(s, duration) && duration <= U64_MAX
  {
    if Parse(s, true) == Ok(duration) {
      ReadIsDenoted(s, 0, 0, duration);
    }
    if Denotes(s, duration) && duration <= U64_MAX {
      DenotedIsRead(s, 0, 0, duration, true);
    }
  }

  /** A reading that starts within 64 bits ends within them. */
  lemma {:induction false} ReadingFits(s: string, i: nat, duration: nat, checked: bool)
    requires i <= |s| && duration <= U64_MAX
    ensures ParseAt(s, i, duration, checked).Ok? ==> ParseAt(s, i, duration, checked).value <= U64_MAX
    decreases |s| - i
  {
    if i < |s| && ParseAt(s, i, duration, checked).Ok? {
      var slice := SliceUntilUnit(s, i).value;
      var seconds := Product(slice.number, slice.unit, checked).value;
      ReadingFits(s, slice.remaining, duration + seconds, checked);
    }
  }

  /**
   In either build a well-formed text is read as the duration it denotes exactly when that fits 64
   bits.  When it does not, a build without overflow checks may still accept the text, as something
   else.
   */
  lemma ReadRightIffFits(s: string, duration: nat, checked: bool)
    requires Denotes(s, duration)
    ensures Parse(s, checked) == Ok(duration) <==> duration <= U64_MAX
  {
    if duration <= U64_MAX {
      DenotedIsRead(s, 0, 0, duration, checked);
    } else {
      ReadingFits(s, 0, 0, checked);
    }
  }

  /** The first round of any successful reading is an entry, whatever it was counted as. */
  lemma {:induction false} AcceptedIsDenoted(s: string, i: nat, duration: nat, checked: bool) returns (total: nat)
    requires i <= |s| && ParseAt(s, i, duration, checked).Ok?
    ensures DenotesAt(s, i, total)
    decreases |s| - i
  {
    if i == |s| {
      total := 0;
    } else {
      var n := DigitsEnd(s, i);
      var seconds := InSeconds(Value(s, i, n), s[n]);
      DigitsEndThere(s, i, i);
      var rest := AcceptedIsDenoted(s, n + 1, duration + Product(Value(s, i, n), s[n], checked).value, checked);
      total := seconds + rest;
      assert Entry(s, i, n, seconds) && total - seconds == rest;
    }
  }

  /** Neither build accepts a text that is not well-formed; and what it reads is right exactly when it fits. */
  lemma AcceptedIsWellFormed(s: string, checked: bool) returns (duration: nat)
    requires Parse(s, checked).Ok?
    ensures Denotes(s, duration) && (Parse(s, checked) == Ok(duration) <==> duration <= U64_MAX)
  {
    duration := AcceptedIsDenoted(s, 0, 0, checked);
    ReadRightIffFits(s, duration, checked);
  }

  // ---------------------------------------------------------------- what is refused, and how

  /** Numbers with units go from position `i` to position `n` and add up to `duration`. */
  ghost predicate EntriesTo(s: string, i: nat, n: nat, duration: nat)
    requires i <= |s|
    decreases |s| - i
  {
    if i == n then duration == 0
    else exists m: nat, seconds: nat ::
      Entry(s, i, m, seconds) && m < n && seconds <= duration && EntriesTo(s, m + 1, n, duration - seconds)
  }

  /** What fits at the front of a text is read, whatever comes behind it. */
  lemma {:induction false} FrontIsRead(s: string, i: nat, n: nat, before: nat, more: nat, checked: bool)
    requires i <= n <= |s| && EntriesTo(s, i, n, more) && before + more <= U64_MAX
    ensures ParseAt(s, i, before, checked) == ParseAt(s, n, before + more, checked)
    decreases |s| - i
  {
    if i != n {
      var m: nat, seconds: nat :|
        Entry(s, i, m, seconds) && m < n && seconds <= more && EntriesTo(s, m + 1, n, more - seconds);
      EntryIsRead(s, i, m, seconds, before, checked);
      FrontIsRead(s, m + 1, n, before + seconds, more - seconds, checked);
    }
  }

  /** A number without a unit is the end of the text. */
  ghost predicate EndsInDigits(s: string, n: nat) {
    n < |s| && Digits(s, n, |s|) && Value(s, n, |s|) <= U64_MAX
  }

  /** Behind a number comes a character that is neither a digit nor a unit. */
  ghost predicate HasBadUnit(s: string, n: nat, c: char) {
    exists k :: n < k < |s| && Digits(s, n, k) && Value(s, n, k) <= U64_MAX && s[k] == c && !IsDigit(c) && !IsUnit(c)
  }

  lemma DigitsAreLeading(s: string, n: nat, k: nat)
    requires Digits(s, n, k) && (k < |s| ==> !IsDigit(s[k]))
    ensures DigitsEnd(s, n) == k
  {
    var end := DigitsEnd(s, n);
    DigitsEndThere(s, n, n);
    if k < |s| {
      DigitsStop(s, n, end, k);
    }
    if end < |s| {
      DigitsStop(s, n, k, end);
    }
  }

  /** What one round makes of the text in front of it when it is not an entry. */
  lemma RefusedHere(s: string, n: nat, duration: nat, checked: bool)
    requires n < |s|
    ensures EndsInDigits(s, n) ==> ParseAt(s, n, duration, checked) == BadStringSlice
    ensures forall c :: HasBadUnit(s, n, c) ==> ParseAt(s, n, duration, checked) == InvalidCharacter(c)
  {
    if EndsInDigits(s, n) {
      DigitsAreLeading(s, n, |s|);
    }
    forall c | HasBadUnit(s, n, c) ensures ParseAt(s, n, duration, checked) == InvalidCharacter(c) {
      var k :| n < k < |s| && Digits(s, n, k) && Value(s, n, k) <= U64_MAX && s[k] == c && !IsDigit(c) && !IsUnit(c);
      DigitsAreLeading(s, n, k);
    }
  }

  /** A refusal with overflow checks comes behind a front that was read. */
  lemma {:induction false} RefusedSomewhere(s: string, i: nat, before: nat) returns (n: nat, more: nat)
    requires i <= |s| && before <= U64_MAX
    requires ParseAt(s, i, before, true).BadStringSlice? || ParseAt(s, i, before, true).InvalidCharacter?
    ensures i <= n <= |s| && EntriesTo(s, i, n, more) && before + more <= U64_MAX
    ensures ParseAt(s, i, before, true).BadStringSlice? ==> EndsInDigits(s, n)
    ensures ParseAt(s, i, before, true).InvalidCharacter? ==> HasBadUnit(s, n, ParseAt(s, i, before, true).c)
    decreases |s| - i
  {
    var end := DigitsEnd(s, i);
    DigitsEndThere(s, i, i);
    if end == |s| || !IsUnit(s[end]) {
      n, more := i, 0;
    } else {
      var seconds := InSeconds(Value(s, i, end), s[end]);
      var rest: nat;
      n, rest := RefusedSomewhere(s, end + 1, before + seconds);
      more := seconds + rest;
      assert Entry(s, i, end, seconds) && more - seconds == rest;
    }
  }

  /** The text up to position `n` is numbers with units that fit. */
  ghost predicate IsFront(s: string, n: nat) {
    n <= |s| && exists x: nat :: EntriesTo(s, 0, n, x) && x <= U64_MAX
  }

  lemma FrontThenRefused(s: string, n: nat)
    requires IsFront(s, n) && n < |s|
    ensures EndsInDigits(s, n) ==> Parse(s, true) == BadStringSlice
    ensures forall c :: HasBadUnit(s, n, c) ==> Parse(s, true) == InvalidCharacter(c)
  {
    var x: nat :| EntriesTo(s, 0, n, x) && x <= U64_MAX;
    FrontIsRead(s, 0, n, 0, x, true);
    RefusedHere(s, n, x, true);
  }

  /**
   The two errors a user is shown, with overflow checks.  A text is a bad slice exactly if it is
   numbers with units that fit and then a number without one; and a character is invalid exactly if it
   stands where the unit of a number should, behind numbers with units that fit.
   */
  lemma RefusedIff(s: string, c: char)
    ensures Parse(s, true) == BadStringSlice <==> exists n: nat :: IsFront(s, n) && EndsInDigits(s, n)
    ensures Parse(s, true) == InvalidCharacter(c) <==> exists n: nat :: IsFront(s, n) && HasBadUnit(s, n, c)
  {
    if Parse(s, true) == BadStringSlice || Parse(s, true) == InvalidCharacter(c) {
      var n, x := RefusedSomewhere(s, 0, 0);
      assert IsFront(s, n);
    }
    if n: nat :| IsFront(s, n) && EndsInDigits(s, n) {
      FrontThenRefused(s, n);
    }
    if n: nat :| IsFront(s, n) && HasBadUnit(s, n, c) {
      FrontThenRefused(s, n);
    }
  }

  /** A text of the source's own tests. */
  lemma KnownHourAndMinutes(checked: bool)
    ensures Parse("1h30m", checked) == Ok(5400)
  {
    var s := "1h30m";
    assert Digits(s, 0, 0) && Digits(s, 0, 1);
    assert Value(s, 0, 0) == 0 && Value(s, 0, 1) == 1 && Entry(s, 0, 1, 3600);
    EntryIsRead(s, 0, 1, 3600, 0, checked);
    assert Digits(s, 2, 2) && Digits(s, 2, 3) && Digits(s, 2, 4);
    assert Value(s, 2, 2) == 0 && Value(s, 2, 3) == 3 && Value(s, 2, 4) == 30 && Entry(s, 2, 4, 1800);
    EntryIsRead(s, 2, 4, 1800, 3600, checked);
  }

  // ---------------------------------------------------------------- one text behind another

  /** The front of a piece that two texts share. */
  lemma SharedFront(s: string, i: nat, t: string, j: nat, n: nat)
    requires i + n + 1 <= |s| && j + n + 1 <= |t| && s[i..i + n + 1] == t[j..j + n + 1]
    ensures s[i..i + n] == t[j..j + n] && s[i + n] == t[j + n]
  {
    var a, b := s[i..i + n + 1], t[j..j + n + 1];
    assert s[i..i + n] == a[..n];
    assert t[j..j + n] == b[..n];
    assert s[i + n] == a[n];
    assert t[j + n] == b[n];
  }

  lemma MovedEntry(s: string, i: nat, n: nat, seconds: nat, t: string, j: nat)
    requires Entry(s, i, n, seconds) && j + (n - i) + 1 <= |t|
    requires s[i..n + 1] == t[j..j + (n - i) + 1]
    ensures Entry(t, j, j + (n - i), seconds)
  {
    SharedFront(s, i, t, j, n - i);
    SameDigits(s, i, t, j, n - i);
  }

  lemma {:induction false} DenotedBehind(a: string, b: string, i: nat, duration: nat)
    requires i <= |b| && DenotesAt(b, i, duration)
    ensures DenotesAt(a + b, |a| + i, duration)
    decreases |b| - i
  {
    if i < |b| {
      var n: nat, seconds: nat :| Entry(b, i, n, seconds) && seconds <= duration && DenotesAt(b, n + 1, duration - seconds);
      MovedEntry(b, i, n, seconds, a + b, |a| + i);
      DenotedBehind(a, b, n + 1, duration - seconds);
      assert |a| + i + (n - i) + 1 == |a| + (n + 1);
    }
  }

  lemma {:induction false} DenotesConcatAt(a: string, b: string, i: nat, x: nat, y: nat)
    requires i <= |a| && DenotesAt(a, i, x) && Denotes(b, y)
    ensures DenotesAt(a + b, i, x + y)
    decreases |a| - i
  {
    if i == |a| {
      DenotedBehind(a, b, 0, y);
    } else {
      var n: nat, seconds: nat :| Entry(a, i, n, seconds) && seconds <= x && DenotesAt(a, n + 1, x - seconds);
      MovedEntry(a, i, n, seconds, a + b, i);
      DenotesConcatAt(a, b, n + 1, x - seconds, y);
      assert x + y - seconds == x - seconds + y;
    }
  }

  lemma DenotesConcat(a: string, b: string, x: nat, y: nat)
    requires Denotes(a, x) && Denotes(b, y)
    ensures Denotes(a + b, x + y)
  {
    DenotesConcatAt(a, b, 0, x, y);
  }

  /** Writing one duration after another adds them. */
  lemma ConcatenationAdds(a: string, b: string, x: nat, y: nat)
    requires Parse(a, true) == Ok(x) && Parse(b, true) == Ok(y) && x + y <= U64_MAX
    ensures Parse(a + b, true) == Ok(x + y)
  {
    AcceptedIffWellFormed(a, x);
    AcceptedIffWellFormed(b, y);
    DenotesConcat(a, b, x, y);
    AcceptedIffWellFormed(a + b, x + y);
  }

  // ---------------------------------------------------------------- the two together

  function Render(r: HourMinuteSecond): string {
    Decimal(r.hours) + "h" + (Decimal(r.minutes) + "m" + (Decimal(r.seconds) + "s"))
  }

  /** One number with a unit, at the front of a text of its own. */
  lemma WrittenEntry(number: nat, unit: char)
    requires IsUnit(unit)
    ensures Entry(Decimal(number) + [unit], 0, |Decimal(number)|, InSeconds(number, unit))
    ensures Value(Decimal(number) + [unit], 0, |Decimal(number)|) == number
  {
    DecimalDenotes(number);
    SameDigits(Decimal(number) + [unit], 0, Decimal(number), 0, |Decimal(number)|);
  }

  lemma OneEntry(number: nat, unit: char)
    requires IsUnit(unit)
    ensures Denotes(Decimal(number) + [unit], InSeconds(number, unit))
  {
    WrittenEntry(number, unit);
    assert DenotesAt(Decimal(number) + [unit], |Decimal(number)| + 1, 0);
  }

  lemma RenderDenotes(r: HourMinuteSecond)
    ensures Denotes(Render(r), 3600 * r.hours + (60 * r.minutes + r.seconds))
  {
    OneEntry(r.hours, 'h');
    OneEntry(r.minutes, 'm');
    OneEntry(r.seconds, 's');
    var h, m, s := Decimal(r.hours) + "h", Decimal(r.minutes) + "m", Decimal(r.seconds) + "s";
    DenotesConcat(m, s, 60 * r.minutes, r.seconds);
    DenotesConcat(h, m + s, 3600 * r.hours, 60 * r.minutes + r.seconds);
  }

  /** Any 64-bit number of seconds, split and written out, is read back as itself. */
  lemma SplitThenParse(duration: nat, checked: bool)
    requires duration <= U64_MAX
    ensures Parse(Render(Split(duration)), checked) == Ok(duration)
  {
    var r := Split(duration);
    SplitIsExact(duration);
    RenderDenotes(r);
    assert 3600 * r.hours + (60 * r.minutes + r.seconds) == duration;
    DenotedIsRead(Render(r), 0, 0, duration, checked);
  }

  /** A number whose seconds do not fit stops a build with overflow checks; without them it is read as something else. */
  lemma ProductOverflow(number: nat, unit: char)
    requires IsUnit(unit) && number <= U64_MAX < InSeconds(number, unit)
    ensures Parse(Decimal(number) + [unit], true) == Panic
    ensures Parse(Decimal(number) + [unit], false) == Ok(InSeconds(number, unit) % (U64_MAX + 1))
  {
    var n, s := |Decimal(number)|, Decimal(number) + [unit];
    WrittenEntry(number, unit);
    EntryIsLeading(s, 0, n, InSeconds(number, unit));
    assert ParseAt(s, n + 1, InSeconds(number, unit) % (U64_MAX + 1), false) == Ok(InSeconds(number, unit) % (U64_MAX + 1));
  }

  // ---------------------------------------------------------------- the form the program shows

  /** At least two digits. */
  function Padded(n: nat): string {
    if n < 10 then "0" + Decimal(n) else Decimal(n)
  }

  /** The form in which the program shows a duration has colons between its parts. */
  function Shown(r: HourMinuteSecond): string {
    Padded(r.hours) + ("h" + (":" + (Padded(r.minutes) + "m:" + (Padded(r.seconds) + "s"))))
  }

  lemma PaddedDenotes(n: nat)
    ensures var p := Padded(n); p != [] && Digits(p, 0, |p|) && Value(p, 0, |p|) == n
  {
    DecimalDenotes(n);
    if n < 10 {
      var p := Padded(n);
      assert p == ['0', Digit(n)];
      assert Digits(p, 0, 0) && Digits(p, 0, 1) && Digits(p, 0, 2);
      assert Value(p, 0, 0) == 0 && Value(p, 0, 1) == 0 && Value(p, 0, 2) == n;
    }
  }

  /** Every part has two digits, or as many as it needs. */
  lemma PaddedWidth(n: nat)
    ensures |Padded(n)| >= 2 && (n < 100 <==> |Padded(n)| == 2)
  {
    if n >= 100 {
      assert |Decimal(n / 10)| == |Decimal(n / 10 / 10)| + 1;
    } else if n >= 10 {
      assert |Decimal(n / 10)| == 1;
    }
  }

  /** An hour, two minutes and three seconds. */
  lemma ShownExample()
    ensures Shown(Split(3723)) == "01h:02m:03s"
  {
    assert Split(3723) == HourMinuteSecond(1, 2, 3);
    assert Padded(1) == "01" && Padded(2) == "02" && Padded(3) == "03";
  }

  /** That form is not one the parser takes: it stops at the first colon. */
  lemma ShownIsRefused(duration: nat, checked: bool)
    requires duration <= U64_MAX
    ensures Parse(Shown(Split(duration)), checked) == Panic
  {
    var r := Split(duration);
    var p, s := Padded(r.hours), Shown(r);
    var n := |p|;
    SplitIsExact(duration);
    PaddedDenotes(r.hours);
    SameDigits(s, 0, p, 0, n);
    assert s[n] == 'h' && s[n + 1] == ':';
    EntryIsRead(s, 0, n, InSeconds(r.hours, 'h'), 0, checked);
    assert DigitsEnd(s, n + 1) == n + 1;
  }
}
