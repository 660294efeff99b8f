/** The daily slot catalogue of `utils/timeSlots.js`: a fixed grid of
    zero-padded `HH:MM` labels from the opening hour to the closing hour in
    fixed steps, with the lunch window left out, and the views built on it. */
module TimeSlots {
  import opened Wrappers
  import opened JsStrings
  import opened Seqs

  /** `TIME_SLOT_CONFIG`: first and last hour, step in minutes, and the
      half-open lunch window, whose bounds are compared as strings. */
  datatype SlotConfig = SlotConfig(
    startHour: nat,
    endHour: nat,
    interval: nat,
    lunchStart: string,
    lunchEnd: string)

  const TimeSlotConfig: SlotConfig := SlotConfig(9, 18, 30, "13:00", "14:00")

  /** A config the generator terminates on (a positive step) and whose hours
      print as two digits. */
  predicate ValidConfig(c: SlotConfig) {
    c.interval > 0 && c.endHour < 100
  }

  /** `n.toString().padStart(2, '0')` */
  function Pad2(n: nat): string {
    PadStart(NatToDecimal(n), 2, '0')
  }

  /** The template string `${Pad2(hour)}:${Pad2(minute)}`, written out
      character by character when both fit in two digits
      (`SlotLabelIsPadded` shows the two spellings agree). */
  function SlotLabel(hour: nat, minute: nat): string {
    if hour < 100 && minute < 100 then
      [DigitChar(hour / 10), DigitChar(hour % 10), ':', DigitChar(minute / 10), DigitChar(minute % 10)]
    else Pad2(hour) + ":" + Pad2(minute)
  }

  /** `timeSlot >= LUNCH_BREAK.start && timeSlot < LUNCH_BREAK.end` */
  predicate InLunchBreak(c: SlotConfig, slot: string) {
    !LexLess(slot, c.lunchStart) && LexLess(slot, c.lunchEnd)
  }

  // ------------------------------------------------ the catalogue, as values

  /** The slots the inner loop adds for `hour`, starting at `minute`. */
  function HourSlotsFrom(c: SlotConfig, hour: nat, minute: nat): seq<string>
    requires c.interval > 0
    decreases 60 - minute
  {
    if minute >= 60 || (hour == c.endHour && minute > 0) then []
    else
      var slot := SlotLabel(hour, minute);
      (if InLunchBreak(c, slot) then [] else [slot]) + HourSlotsFrom(c, hour, minute + c.interval)
  }

  /** The slots the outer loop adds from `hour` up to the closing hour. */
  function SlotsFromHour(c: SlotConfig, hour: nat): seq<string>
    requires c.interval > 0
    decreases c.endHour + 1 - hour
  {
    if hour > c.endHour then [] else HourSlotsFrom(c, hour, 0) + SlotsFromHour(c, hour + 1)
  }

  /** One pass of the inner loop keeps its invariant. */
  lemma HourSlotsStep(c: SlotConfig, hour: nat, minute: nat, slots: seq<string>, total: seq<string>)
    requires c.interval > 0 && minute < 60 && !(hour == c.endHour && minute > 0)
    requires slots + HourSlotsFrom(c, hour, minute) == total
    ensures var slot := SlotLabel(hour, minute);
      (if InLunchBreak(c, slot) then slots else slots + [slot]) + HourSlotsFrom(c, hour, minute + c.interval)
      == total
  {
    var slot := SlotLabel(hour, minute);
    var later := HourSlotsFrom(c, hour, minute + c.interval);
    if InLunchBreak(c, slot) {
      assert HourSlotsFrom(c, hour, minute) == later;
    } else {
      assert HourSlotsFrom(c, hour, minute) == [slot] + later;
      AppendAssoc(slots, [slot], later);
    }
  }

  /** Every slot of a day, in the order `generateAllTimeSlots` pushes them. */
  function Catalog(c: SlotConfig): seq<string>
    requires c.interval > 0
  {
    SlotsFromHour(c, c.startHour)
  }

  /** `generateAllTimeSlots()`, with the config it reads passed in. */
  method GenerateAllTimeSlots(config: SlotConfig) returns (slots: seq<string>)
    requires config.interval > 0
    ensures slots == Catalog(config)
  {
    slots := [];
    var hour := config.startHour;
    while hour <= config.endHour
      invariant slots + SlotsFromHour(config, hour) == Catalog(config)
      decreases config.endHour + 1 - hour
    {
      ghost var before := slots;
      slots := AddHourSlots(config, hour, slots);
      AppendAssoc(before, HourSlotsFrom(config, hour, 0), SlotsFromHour(config, hour + 1));
      hour := hour + 1;
    }
  }

  /** The inner loop of `generateAllTimeSlots`: one hour's slots appended to
      `slots`, stopping after minute 0 of the closing hour and skipping lunch. */
  method AddHourSlots(config: SlotConfig, hour: nat, slots0: seq<string>) returns (slots: seq<string>)
    requires config.interval > 0
    ensures slots == slots0 + HourSlotsFrom(config, hour, 0)
  {
    slots := slots0;
    var minute := 0;
    while minute < 60
      invariant slots + HourSlotsFrom(config, hour, minute) == slots0 + HourSlotsFrom(config, hour, 0)
      decreases 60 - minute
    {
      if hour == config.endHour && minute > 0 {
        break;
      }
      var timeSlot := SlotLabel(hour, minute);
      HourSlotsStep(config, hour, minute, slots, slots0 + HourSlotsFrom(config, hour, 0));
      if InLunchBreak(config, timeSlot) {
        minute := minute + config.interval;
        continue;
      }
      slots := slots + [timeSlot];
      minute := minute + config.interval;
    }
    assert HourSlotsFrom(config, hour, minute) == [];
  }

  // ------------------------------------------------------------ slot labels

  /** A zero-padded 24-hour `HH:MM` string. */
  predicate IsSlotLabel(s: string) {
    |s| == 5 && IsDigit(s[0]) && IsDigit(s[1]) && s[2] == ':' && IsDigit(s[3]) && IsDigit(s[4])
  }

  function LabelHour(s: string): nat
    requires IsSlotLabel(s)
  {
    10 * DigitValue(s[0]) + DigitValue(s[1])
  }

  function LabelMinute(s: string): nat
    requires IsSlotLabel(s)
  {
    10 * DigitValue(s[3]) + DigitValue(s[4])
  }

  /** The clock time of a label as one number, `HHMM`; -1 for anything else. */
  function SlotKey(s: string): int {
    if IsSlotLabel(s) then 100 * LabelHour(s) + LabelMinute(s) else -1
  }

  lemma Pad2Digits(n: nat)
    requires n < 100
    ensures Pad2(n) == [DigitChar(n / 10), DigitChar(n % 10)]
  {
    if n >= 10 {
      assert NatToDecimal(n) == NatToDecimal(n / 10) + [DigitChar(n % 10)];
    }
  }

  lemma SlotLabelIsPadded(hour: nat, minute: nat)
    ensures SlotLabel(hour, minute) == Pad2(hour) + ":" + Pad2(minute)
  {
    if hour < 100 && minute < 100 {
      Pad2Digits(hour);
      Pad2Digits(minute);
    }
  }

  lemma SlotLabelShape(hour: nat, minute: nat)
    requires hour < 100 && minute < 100
    ensures SlotLabel(hour, minute)
            == [DigitChar(hour / 10), DigitChar(hour % 10), ':', DigitChar(minute / 10), DigitChar(minute % 10)]
    ensures IsSlotLabel(SlotLabel(hour, minute))
    ensures LabelHour(SlotLabel(hour, minute)) == hour
    ensures LabelMinute(SlotLabel(hour, minute)) == minute
  {
  }

  /** Every well-formed label is the label of its own hour and minute. */
  lemma SlotLabelOfShape(s: string)
    requires IsSlotLabel(s)
    ensures SlotLabel(LabelHour(s), LabelMinute(s)) == s
  {
    SlotLabelShape(LabelHour(s), LabelMinute(s));
  }

  /** On labels, the string order JavaScript uses is clock order. */
  lemma LabelOrder(a: string, b: string)
    requires IsSlotLabel(a) && IsSlotLabel(b)
    ensures LexLess(a, b) <==> SlotKey(a) < SlotKey(b)
  {
    var a1, b1 := a[1..], b[1..];
    var a2, b2 := a1[1..], b1[1..];
    var a3, b3 := a2[1..], b2[1..];
    var a4, b4 := a3[1..], b3[1..];
    assert LexLess(a4, b4) <==> a4[0] < b4[0] by {
      assert a4[1..] == [] && b4[1..] == [];
    }
    assert LexLess(a, b) == if a[0] != b[0] then a[0] < b[0] else LexLess(a1, b1);
    assert LexLess(a1, b1) == if a[1] != b[1] then a[1] < b[1] else LexLess(a2, b2);
    assert LexLess(a2, b2) == LexLess(a3, b3);
    assert LexLess(a3, b3) == if a[3] != b[3] then a[3] < b[3] else LexLess(a4, b4);
  }

  /** Keys strictly increase along `s`. */
  ghost predicate KeysIncreasing(s: seq<string>) {
    forall i, j :: 0 <= i < j < |s| ==> SlotKey(s[i]) < SlotKey(s[j])
  }

  lemma KeysIncreasingConcat(a: seq<string>, b: seq<string>)
    requires KeysIncreasing(a) && KeysIncreasing(b)
    requires forall x, y :: x in a && y in b ==> SlotKey(x) < SlotKey(y)
    ensures KeysIncreasing(a + b)
  {
    var ab := a + b;
    forall i, j | 0 <= i < j < |ab| ensures SlotKey(ab[i]) < SlotKey(ab[j]) {
      if j < |a| {
        assert ab[i] == a[i] && ab[j] == a[j];
      } else if i >= |a| {
        assert ab[i] == b[i - |a|] && ab[j] == b[j - |a|];
      } else {
        assert ab[i] in a && ab[j] in b;
      }
    }
  }

  // ---------------------------------------------------- catalogue membership

  /** The minute `m` is reached from `from` in steps of `step`, as the inner
      loop's `minute += INTERVAL` does. */
  predicate OnGrid(step: nat, from: nat, m: nat)
    requires step > 0
    decreases m - from
  {
    from == m || (from < m && OnGrid(step, from + step, m))
  }

  /** What the catalogue promises about a slot, independently of the loops:
      a well-formed label between the opening and the closing hour, on the
      minute grid, nothing after the closing hour's first minute, and outside
      the lunch window. */
  predicate IsCatalogSlot(c: SlotConfig, s: string)
    requires c.interval > 0
  {
    && IsSlotLabel(s)
    && c.startHour <= LabelHour(s) <= c.endHour
    && LabelMinute(s) < 60
    && OnGrid(c.interval, 0, LabelMinute(s))
    && (LabelHour(s) == c.endHour ==> LabelMinute(s) == 0)
    && !InLunchBreak(c, s)
  }

  /** A slot the inner loop can add for `hour` once it has reached `minute`. */
  predicate SlotOfHour(c: SlotConfig, hour: nat, minute: nat, s: string)
    requires c.interval > 0
  {
    && IsSlotLabel(s) && LabelHour(s) == hour
    && minute <= LabelMinute(s) < 60 && OnGrid(c.interval, minute, LabelMinute(s))
    && (hour == c.endHour ==> LabelMinute(s) == 0)
  }

  lemma SlotOfHourEarlier(c: SlotConfig, hour: nat, minute: nat, s: string)
    requires c.interval > 0 && SlotOfHour(c, hour, minute + c.interval, s)
    ensures SlotOfHour(c, hour, minute, s)
  {
  }

  lemma {:induction false} HourSlotsFromShape(c: SlotConfig, hour: nat, minute: nat)
    requires ValidConfig(c) && hour <= c.endHour
    ensures forall s :: s in HourSlotsFrom(c, hour, minute) ==> SlotOfHour(c, hour, minute, s)
    decreases 60 - minute
  {
    if !(minute >= 60 || (hour == c.endHour && minute > 0)) {
      var slot := SlotLabel(hour, minute);
      var rest := HourSlotsFrom(c, hour, minute + c.interval);
      HourSlotsFromShape(c, hour, minute + c.interval);
      forall s | s in rest ensures SlotOfHour(c, hour, minute, s) {
        SlotOfHourEarlier(c, hour, minute, s);
      }
      if InLunchBreak(c, slot) {
        assert HourSlotsFrom(c, hour, minute) == rest;
      } else {
        SlotLabelShape(hour, minute);
        assert SlotOfHour(c, hour, minute, slot);
        assert HourSlotsFrom(c, hour, minute) == [slot] + rest;
      }
    }
  }

  lemma {:induction false} HourSlotsFromNoLunch(c: SlotConfig, hour: nat, minute: nat)
    requires c.interval > 0
    ensures forall s :: s in HourSlotsFrom(c, hour, minute) ==> !InLunchBreak(c, s)
    decreases 60 - minute
  {
    if !(minute >= 60 || (hour == c.endHour && minute > 0)) {
      var slot := SlotLabel(hour, minute);
      var rest := HourSlotsFrom(c, hour, minute + c.interval);
      HourSlotsFromNoLunch(c, hour, minute + c.interval);
      if InLunchBreak(c, slot) {
        assert HourSlotsFrom(c, hour, minute) == rest;
      } else {
        assert HourSlotsFrom(c, hour, minute) == [slot] + rest;
      }
    }
  }

  lemma {:induction false} HourSlotsFromIncreasing(c: SlotConfig, hour: nat, minute: nat)
    requires ValidConfig(c) && hour <= c.endHour
    ensures KeysIncreasing(HourSlotsFrom(c, hour, minute))
    decreases 60 - minute
  {
    if !(minute >= 60 || (hour == c.endHour && minute > 0)) {
      HourSlotsFromIncreasing(c, hour, minute + c.interval);
      IncreasingStep(c, hour, minute);
    }
  }

  /** The inner loop's next slot comes before every later slot of its hour. */
  lemma IncreasingStep(c: SlotConfig, hour: nat, minute: nat)
    requires ValidConfig(c) && hour <= c.endHour
    requires minute < 60 && !(hour == c.endHour && minute > 0)
    requires KeysIncreasing(HourSlotsFrom(c, hour, minute + c.interval))
    ensures KeysIncreasing(HourSlotsFrom(c, hour, minute))
  {
    var slot := SlotLabel(hour, minute);
    var rest := HourSlotsFrom(c, hour, minute + c.interval);
    if InLunchBreak(c, slot) {
      assert HourSlotsFrom(c, hour, minute) == rest;
    } else {
      assert HourSlotsFrom(c, hour, minute) == [slot] + rest;
      SlotLabelShape(hour, minute);
      HourSlotsFromShape(c, hour, minute + c.interval);
      PrependEarlier(slot, rest, hour, minute);
    }
  }

  /** A label before every label of the same hour keeps the keys increasing. */
  lemma PrependEarlier(slot: string, rest: seq<string>, hour: nat, minute: nat)
    requires IsSlotLabel(slot) && LabelHour(slot) == hour && LabelMinute(slot) == minute
    requires KeysIncreasing(rest)
    requires forall y :: y in rest ==> IsSlotLabel(y) && LabelHour(y) == hour && minute < LabelMinute(y)
    ensures KeysIncreasing([slot] + rest)
  {
    forall x, y | x in [slot] && y in rest ensures SlotKey(x) < SlotKey(y) {
      assert SlotKey(y) == 100 * hour + LabelMinute(y);
    }
    KeysIncreasingConcat([slot], rest);
  }

  /** Every slot of an hour is a well-formed label of that hour on the minute
      grid and outside lunch; the hour's slots are in clock order. */
  lemma HourSlotsFromSound(c: SlotConfig, hour: nat, minute: nat)
    requires ValidConfig(c) && hour <= c.endHour
    ensures forall s :: s in HourSlotsFrom(c, hour, minute) ==>
      && IsSlotLabel(s) && LabelHour(s) == hour
      && minute <= LabelMinute(s) < 60 && OnGrid(c.interval, minute, LabelMinute(s))
      && (hour == c.endHour ==> LabelMinute(s) == 0)
      && !InLunchBreak(c, s)
    ensures KeysIncreasing(HourSlotsFrom(c, hour, minute))
  {
    HourSlotsFromShape(c, hour, minute);
    HourSlotsFromNoLunch(c, hour, minute);
    HourSlotsFromIncreasing(c, hour, minute);
  }

  lemma {:induction false} SlotsFromHourSound(c: SlotConfig, hour: nat)
    requires ValidConfig(c)
    ensures forall s :: s in SlotsFromHour(c, hour) ==>
      && IsSlotLabel(s) && hour <= LabelHour(s) <= c.endHour
      && LabelMinute(s) < 60 && OnGrid(c.interval, 0, LabelMinute(s))
      && (LabelHour(s) == c.endHour ==> LabelMinute(s) == 0)
      && !InLunchBreak(c, s)
    ensures KeysIncreasing(SlotsFromHour(c, hour))
    decreases c.endHour + 1 - hour
  {
    if hour <= c.endHour {
      HourSlotsFromSound(c, hour, 0);
      SlotsFromHourSound(c, hour + 1);
      var here := HourSlotsFrom(c, hour, 0);
      var later := SlotsFromHour(c, hour + 1);
      forall x, y | x in here && y in later ensures SlotKey(x) < SlotKey(y) {
      }
      KeysIncreasingConcat(here, later);
    }
  }

  lemma {:induction false} HourSlotsFromComplete(c: SlotConfig, hour: nat, minute: nat, m: nat)
    requires ValidConfig(c) && hour <= c.endHour
    requires minute <= m < 60 && OnGrid(c.interval, minute, m)
    requires hour == c.endHour ==> m == 0
    requires !InLunchBreak(c, SlotLabel(hour, m))
    ensures SlotLabel(hour, m) in HourSlotsFrom(c, hour, minute)
    decreases 60 - minute
  {
    if minute < m {
      HourSlotsFromComplete(c, hour, minute + c.interval, m);
    }
  }

  lemma {:induction false} SlotsFromHourComplete(c: SlotConfig, hour: nat, s: string)
    requires ValidConfig(c) && IsCatalogSlot(c, s) && hour <= LabelHour(s)
    ensures s in SlotsFromHour(c, hour)
    decreases c.endHour + 1 - hour
  {
    var here := HourSlotsFrom(c, hour, 0);
    var later := SlotsFromHour(c, hour + 1);
    assert SlotsFromHour(c, hour) == here + later;
    if hour == LabelHour(s) {
      SlotLabelOfShape(s);
      HourSlotsFromComplete(c, hour, 0, LabelMinute(s));
      assert s in here;
    } else {
      SlotsFromHourComplete(c, hour + 1, s);
      assert s in later;
    }
  }

  /** A string is in the catalogue exactly when it has the catalogue's shape. */
  lemma CatalogMembership(c: SlotConfig, s: string)
    requires ValidConfig(c)
    ensures s in Catalog(c) <==> IsCatalogSlot(c, s)
  {
    SlotsFromHourSound(c, c.startHour);
    if IsCatalogSlot(c, s) {
      SlotsFromHourComplete(c, c.startHour, s);
    }
  }

  /** The catalogue is strictly increasing as JavaScript compares strings,
      hence free of duplicates, and no slot lies in the lunch window. */
  lemma CatalogOrdered(c: SlotConfig)
    requires ValidConfig(c)
    ensures forall i, j :: 0 <= i < j < |Catalog(c)| ==> LexLess(Catalog(c)[i], Catalog(c)[j])
    ensures NoDuplicates(Catalog(c))
    ensures forall s :: s in Catalog(c) ==> IsSlotLabel(s) && !InLunchBreak(c, s)
  {
    var cat := Catalog(c);
    SlotsFromHourSound(c, c.startHour);
    forall i, j | 0 <= i < j < |cat| ensures LexLess(cat[i], cat[j]) && cat[i] != cat[j] {
      assert cat[i] in cat && cat[j] in cat;
      LabelOrder(cat[i], cat[j]);
    }
  }

  // ------------------------------------------------------ the shipped config

  const ShippedSlots: seq<string> := [
    "09:00", "09:30", "10:00", "10:30", "11:00", "11:30", "12:00", "12:30",
    "14:00", "14:30", "15:00", "15:30", "16:00", "16:30", "17:00", "17:30", "18:00"]

  /** With the shipped config, exactly the labels of hour 13 are lunch. */
  lemma ShippedLunch(s: string)
    requires IsSlotLabel(s)
    ensures InLunchBreak(TimeSlotConfig, s) <==> LabelHour(s) == 13
  {
    SlotLabelShape(13, 0);
    SlotLabelShape(14, 0);
    assert SlotLabel(13, 0) == "13:00" && SlotLabel(14, 0) == "14:00";
    LabelOrder(s, "13:00");
    LabelOrder(s, "14:00");
  }

  function ShippedHourSlots(hour: nat): seq<string> {
    if hour == 13 then []
    else if hour == 18 then [SlotLabel(18, 0)]
    else [SlotLabel(hour, 0), SlotLabel(hour, 30)]
  }

  /** The slots of one hour under the shipped config.  The config is a
      parameter equal to `TimeSlotConfig` so that the proof reasons about the
      definitions step by step instead of evaluating them. */
  lemma ShippedHour(c: SlotConfig, hour: nat)
    requires c == TimeSlotConfig && 9 <= hour <= 18
    ensures HourSlotsFrom(c, hour, 0) == ShippedHourSlots(hour)
  {
    SlotLabelShape(hour, 0);
    SlotLabelShape(hour, 30);
    ShippedLunch(SlotLabel(hour, 0));
    ShippedLunch(SlotLabel(hour, 30));
    assert HourSlotsFrom(c, hour, 60) == [];
    if hour != 18 {
      assert HourSlotsFrom(c, hour, 30) == (if hour == 13 then [] else [SlotLabel(hour, 30)]);
    }
  }

  /** What the hours from `hour` to 18 contribute under the shipped config. */
  function ShippedFromHour(hour: nat): seq<string>
    decreases 19 - hour
  {
    if hour > 18 then [] else ShippedHourSlots(hour) + ShippedFromHour(hour + 1)
  }

  lemma {:induction false} ShippedChain(c: SlotConfig, hour: nat)
    requires c.interval > 0 && c.endHour == 18 && 9 <= hour
    requires forall h :: 9 <= h <= 18 ==> HourSlotsFrom(c, h, 0) == ShippedHourSlots(h)
    ensures SlotsFromHour(c, hour) == ShippedFromHour(hour)
    decreases 19 - hour
  {
    if hour <= 18 {
      ShippedChain(c, hour + 1);
      assert HourSlotsFrom(c, hour, 0) == ShippedHourSlots(hour);
    }
  }

  lemma ShippedFromHourText()
    ensures ShippedFromHour(9) == ShippedSlots
  {
  }

  /** With the shipped config the day has exactly these 17 slots: half-hours
      from 09:00 to 12:30 and from 14:00 to 17:30, then 18:00, because the
      closing hour keeps only its minute 0. */
  lemma ShippedCatalog()
    ensures Catalog(TimeSlotConfig) == ShippedSlots
    ensures |Catalog(TimeSlotConfig)| == 17
  {
    var c := TimeSlotConfig;
    forall hour | 9 <= hour <= 18 ensures HourSlotsFrom(c, hour, 0) == ShippedHourSlots(hour) {
      ShippedHour(c, hour);
    }
    ShippedChain(c, 9);
    ShippedFromHourText();
  }

  // ---------------------------------------------------------- getAvailableSlots

  /** The object `getAvailableSlots` returns. */
  datatype SlotSummary = SlotSummary(
    availableSlots: seq<string>,
    bookedSlots: seq<string>,
    totalSlots: nat,
    availableCount: nat,
    bookedCount: nat,
    config: SlotConfig)

  /** `getAvailableSlots(bookedSlots)`: the catalogue in order, minus every
      booked label; the booked list is echoed as given. */
  method GetAvailableSlots(bookedSlots: seq<string>) returns (r: SlotSummary)
    ensures r.availableSlots == Filter(ShippedSlots, slot => slot !in bookedSlots)
    ensures r.totalSlots == 17 && r.availableCount == |r.availableSlots|
    ensures r.bookedSlots == bookedSlots && r.bookedCount == |bookedSlots|
    ensures r.config == TimeSlotConfig
  {
    var allSlots := GenerateAllTimeSlots(TimeSlotConfig);
    ShippedCatalog();
    var availableSlots := Filter(allSlots, slot => slot !in bookedSlots);
    r := SlotSummary(availableSlots, bookedSlots, |allSlots|, |availableSlots|, |bookedSlots|, TimeSlotConfig);
  }

  /** Available slots and catalogue slots that are booked add up to the day:
      `availableCount` is 17 minus the booked labels the catalogue contains. */
  lemma AvailableCountLaw(bookedSlots: seq<string>)
    ensures |Filter(ShippedSlots, slot => slot !in bookedSlots)|
            + |Filter(ShippedSlots, slot => slot in bookedSlots)| == 17
  {
    FilterSplitsLength(ShippedSlots, slot => slot !in bookedSlots, slot => slot in bookedSlots);
  }

  // ------------------------------------------------------------ formatTimeSlot

  /** Input `formatTimeSlot` is modelled on: the first two `:`-separated
      fields are digit strings short enough for `Number` to read exactly and
      for `toString` to print without an exponent. */
  predicate IsClockText(t: string) {
    var parts := Split(t, ':');
    |parts| >= 2 && AllDigits(parts[0]) && AllDigits(parts[1]) && |parts[0]| <= 15 && |parts[1]| <= 15
  }

  /** `formatTimeSlot(timeSlot)`: 12-hour clock text such as `9:00 AM`. */
  function FormatTimeSlot(timeSlot: string): string
    requires IsClockText(timeSlot)
  {
    var parts := Split(timeSlot, ':');
    var hours := DecimalValue(parts[0]);
    var minutes := DecimalValue(parts[1]);
    var period := if hours >= 12 then "PM" else "AM";
    var displayHours := if hours > 12 then hours - 12 else if hours == 0 then 12 else hours;
    DisplayText(displayHours, minutes, period)
  }

  /** The 12-hour text `formatTimeSlot` builds, from its three pieces. */
  function DisplayText(displayHours: nat, minutes: nat, period: string): string {
    NatToDecimal(displayHours) + ":" + Pad2(minutes) + " " + period
  }

  /** Reads 12-hour clock text back into a 24-hour (hour, minute) pair. */
  function ParseDisplayTime(t: string): Option<(nat, nat)>
  {
    var words := Split(t, ' ');
    if |words| != 2 then None
    else
      var clock := Split(words[0], ':');
      if |clock| != 2 || clock[0] == [] || |clock[1]| != 2 || !AllDigits(clock[0]) || !AllDigits(clock[1]) then None
      else
        var h12 := DecimalValue(clock[0]);
        var m := DecimalValue(clock[1]);
        if !(1 <= h12 <= 12) || m >= 60 then None
        else if words[1] == "AM" then Some((if h12 == 12 then 0 else h12, m))
        else if words[1] == "PM" then Some((if h12 == 12 then 12 else h12 + 12, m))
        else None
  }

  lemma Pad2Value(n: nat)
    requires n < 100
    ensures |Pad2(n)| == 2 && AllDigits(Pad2(n)) && DecimalValue(Pad2(n)) == n && ':' !in Pad2(n) && ' ' !in Pad2(n)
  {
    Pad2Digits(n);
    DecimalValueTwo(DigitChar(n / 10), DigitChar(n % 10));
  }

  /** A label splits at its colon into its two zero-padded fields. */
  lemma SlotLabelFields(hour: nat, minute: nat)
    requires hour < 100 && minute < 100
    ensures Split(SlotLabel(hour, minute), ':') == [Pad2(hour), Pad2(minute)]
    ensures IsClockText(SlotLabel(hour, minute))
    ensures DecimalValue(Pad2(hour)) == hour && DecimalValue(Pad2(minute)) == minute
  {
    Pad2Value(hour);
    Pad2Value(minute);
    SlotLabelIsPadded(hour, minute);
    assert SlotLabel(hour, minute) == Pad2(hour) + [':'] + Pad2(minute);
    SplitTwo(Pad2(hour), Pad2(minute), ':');
  }

  /** The 12-hour text splits into its clock and its period, and the clock
      into its hour and minute fields. */
  lemma DisplayTextSplits(displayHours: nat, minutes: nat, period: string)
    requires minutes < 100 && ' ' !in period
    ensures var clock := NatToDecimal(displayHours) + ":" + Pad2(minutes);
      && Split(DisplayText(displayHours, minutes, period), ' ') == [clock, period]
      && Split(clock, ':') == [NatToDecimal(displayHours), Pad2(minutes)]
  {
    var d, p := NatToDecimal(displayHours), Pad2(minutes);
    Pad2Value(minutes);
    assert ':' !in d && ' ' !in d by {
      assert AllDigits(d);
    }
    var clock := d + [':'] + p;
    assert ' ' !in clock;
    assert DisplayText(displayHours, minutes, period) == clock + [' '] + period;
    SplitTwo(clock, period, ' ');
    SplitTwo(d, p, ':');
  }

  /** 12-hour text reads back as the hour and minute it was built from. */
  lemma ParseDisplayText(displayHours: nat, minutes: nat, period: string)
    requires 1 <= displayHours <= 12 && minutes < 60 && (period == "AM" || period == "PM")
    ensures ParseDisplayTime(DisplayText(displayHours, minutes, period))
            == Some((if period == "AM" then (if displayHours == 12 then 0 else displayHours)
                     else (if displayHours == 12 then 12 else displayHours + 12), minutes))
  {
    DisplayTextSplits(displayHours, minutes, period);
    Pad2Value(minutes);
    var d := NatToDecimal(displayHours);
    assert d != [] && AllDigits(d) && DecimalValue(d) == displayHours;
  }

  /** Every slot of a day formats to 12-hour text that reads back as the same
      clock time: the hour, the minute and AM/PM are all preserved. */
  lemma FormatTimeSlotRoundTrip(hour: nat, minute: nat)
    requires hour < 24 && minute < 60
    ensures IsClockText(SlotLabel(hour, minute))
    ensures ParseDisplayTime(FormatTimeSlot(SlotLabel(hour, minute))) == Some((hour, minute))
  {
    SlotLabelFields(hour, minute);
    var displayHours: nat := if hour > 12 then hour - 12 else if hour == 0 then 12 else hour;
    var period := if hour >= 12 then "PM" else "AM";
    assert FormatTimeSlot(SlotLabel(hour, minute)) == DisplayText(displayHours, minute, period);
    ParseDisplayText(displayHours, minute, period);
  }

  /** The 12-hour text of a label starts with the hour without a leading
      zero and ends in `AM` before noon and `PM` from noon on. */
  lemma FormatTimeSlotShape(hour: nat, minute: nat)
    requires hour < 24 && minute < 60
    ensures IsClockText(SlotLabel(hour, minute))
    ensures var t := FormatTimeSlot(SlotLabel(hour, minute));
      && |t| >= 7 && t[0] != '0' && IsDigit(t[0])
      && t[|t| - 3..] == (if hour >= 12 then " PM" else " AM")
  {
    var displayHours: nat := if hour > 12 then hour - 12 else if hour == 0 then 12 else hour;
    var period := if hour >= 12 then "PM" else "AM";
    FormatExample(hour, minute, displayHours, period);
    var d := NatToDecimal(displayHours);
    var m := Pad2(minute);
    Pad2Value(minute);
    assert d[0] != '0' && IsDigit(d[0]);
    DisplayTextEnds(d, m, period);
  }

  lemma DisplayTextEnds(d: string, m: string, period: string)
    requires |d| >= 1 && |m| == 2 && |period| == 2
    ensures var t := d + ":" + m + " " + period;
      |t| >= 7 && t[0] == d[0] && t[|t| - 3..] == " " + period
  {
    var t := d + ":" + m + " " + period;
    assert t[|t| - 3..] == [t[|t| - 3], t[|t| - 2], t[|t| - 1]];
  }

  /** 09:00 displays as `9:00 AM`, with no leading zero. */
  lemma FormatMorningExample()
    ensures SlotLabel(9, 0) == "09:00"
    ensures IsClockText(SlotLabel(9, 0)) && FormatTimeSlot(SlotLabel(9, 0)) == "9:00 AM"
  {
    FormatExample(9, 0, 9, "AM");
    SlotLabelShape(9, 0);
    assert NatToDecimal(9) == "9";
    assert Pad2(0) == "00";
  }

  /** 12:30 displays as `12:30 PM`: noon is PM and keeps the hour 12. */
  lemma FormatNoonExample()
    ensures SlotLabel(12, 30) == "12:30"
    ensures IsClockText(SlotLabel(12, 30)) && FormatTimeSlot(SlotLabel(12, 30)) == "12:30 PM"
  {
    FormatExample(12, 30, 12, "PM");
    SlotLabelShape(12, 30);
    NoonDigits();
    assert NatToDecimal(12) + ":" + Pad2(30) + " " + "PM" == "12" + ":" + "30" + " " + "PM";
  }

  lemma NoonDigits()
    ensures NatToDecimal(12) == "12" && Pad2(30) == "30"
  {
    assert NatToDecimal(1) == "1";
    assert NatToDecimal(12) == NatToDecimal(1) + [DigitChar(2)];
    Pad2Digits(30);
  }

  /** 18:00 displays as `6:00 PM`. */
  lemma FormatEveningExample()
    ensures SlotLabel(18, 0) == "18:00"
    ensures IsClockText(SlotLabel(18, 0)) && FormatTimeSlot(SlotLabel(18, 0)) == "6:00 PM"
  {
    FormatExample(18, 0, 6, "PM");
    SlotLabelShape(18, 0);
    assert NatToDecimal(6) == "6";
    assert Pad2(0) == "00";
  }

  lemma FormatExample(hour: nat, minute: nat, displayHours: nat, period: string)
    requires hour < 24 && minute < 60
    requires displayHours == if hour > 12 then hour - 12 else if hour == 0 then 12 else hour
    requires period == if hour >= 12 then "PM" else "AM"
    ensures IsClockText(SlotLabel(hour, minute))
    ensures FormatTimeSlot(SlotLabel(hour, minute)) == NatToDecimal(displayHours) + ":" + Pad2(minute) + " " + period
  {
    SlotLabelFields(hour, minute);
  }

  // ---------------------------------------------------- groupTimeSlotsByPeriod

  /** `parseInt(slot.split(':')[0])` */
  function SlotHour(slot: string): Option<int> {
    ParseInt(Split(slot, ':')[0])
  }

  predicate IsMorning(slot: string) {
    var h := SlotHour(slot); h.Some? && 9 <= h.value < 12
  }

  predicate IsAfternoon(slot: string) {
    var h := SlotHour(slot); h.Some? && 14 <= h.value < 17
  }

  predicate IsEvening(slot: string) {
    var h := SlotHour(slot); h.Some? && 17 <= h.value <= 18
  }

  datatype PeriodGroups = PeriodGroups(morning: seq<string>, afternoon: seq<string>, evening: seq<string>)

  /** `groupTimeSlotsByPeriod(slots)`: three order-preserving selections by
      hour; hours 12 and 13, and text with no leading number, fall in none. */
  function GroupTimeSlotsByPeriod(slots: seq<string>): (r: PeriodGroups)
    ensures IsSubsequence(r.morning, slots) && IsSubsequence(r.afternoon, slots) && IsSubsequence(r.evening, slots)
    ensures forall s :: s in r.morning <==> s in slots && IsMorning(s)
    ensures forall s :: s in r.afternoon <==> s in slots && IsAfternoon(s)
    ensures forall s :: s in r.evening <==> s in slots && IsEvening(s)
    ensures forall s :: multiset(r.morning)[s] == if IsMorning(s) then multiset(slots)[s] else 0
    ensures forall s :: multiset(r.afternoon)[s] == if IsAfternoon(s) then multiset(slots)[s] else 0
    ensures forall s :: multiset(r.evening)[s] == if IsEvening(s) then multiset(slots)[s] else 0
    ensures forall s :: !(s in r.morning && s in r.afternoon) && !(s in r.morning && s in r.evening)
                        && !(s in r.afternoon && s in r.evening)
    ensures |r.morning| + |r.afternoon| + |r.evening| <= |slots|
  {
    FilterThreeDisjoint(slots, IsMorning, IsAfternoon, IsEvening);
    PeriodGroups(Filter(slots, IsMorning), Filter(slots, IsAfternoon), Filter(slots, IsEvening))
  }

  lemma SlotHourOfLabel(hour: nat, minute: nat)
    requires hour < 100 && minute < 100
    ensures SlotHour(SlotLabel(hour, minute)) == Some(hour)
  {
    SlotLabelFields(hour, minute);
    Pad2Value(hour);
    ParseIntOfDigits(Pad2(hour));
  }

  /** On labels the three periods are hour ranges: 09-11, 14-16 and 17-18.
      Hours 12 and 13 belong to none, so grouping the catalogue drops 12:00
      and 12:30. */
  lemma SlotPeriods(hour: nat, minute: nat)
    requires hour < 100 && minute < 100
    ensures IsMorning(SlotLabel(hour, minute)) <==> 9 <= hour < 12
    ensures IsAfternoon(SlotLabel(hour, minute)) <==> 14 <= hour < 17
    ensures IsEvening(SlotLabel(hour, minute)) <==> 17 <= hour <= 18
  {
    SlotHourOfLabel(hour, minute);
  }

  // ---------------------------------------------------------- isValidTimeSlot

  /** `isValidTimeSlot(timeSlot)`: membership in the generated catalogue. */
  method IsValidTimeSlot(timeSlot: string) returns (r: bool)
    ensures r <==> timeSlot in ShippedSlots
    ensures r <==> IsCatalogSlot(TimeSlotConfig, timeSlot)
  {
    var allSlots := GenerateAllTimeSlots(TimeSlotConfig);
    ShippedCatalog();
    CatalogMembership(TimeSlotConfig, timeSlot);
    r := timeSlot in allSlots;
  }

  /** The catalogue's shape, spelled out on its edges: the closing hour keeps
      only 18:00, lunch is all of hour 13, and labels are zero-padded. */
  lemma CatalogEdges()
    ensures IsCatalogSlot(TimeSlotConfig, "18:00") && IsCatalogSlot(TimeSlotConfig, "09:30")
    ensures !IsCatalogSlot(TimeSlotConfig, "13:00") && !IsCatalogSlot(TimeSlotConfig, "13:30")
    ensures !IsCatalogSlot(TimeSlotConfig, "18:30") && !IsCatalogSlot(TimeSlotConfig, "08:30")
    ensures !IsCatalogSlot(TimeSlotConfig, "9:00") && !IsCatalogSlot(TimeSlotConfig, "")
  {
    ShippedLunch("13:00");
    ShippedLunch("13:30");
    ShippedLunch("18:00");
    ShippedLunch("09:30");
    assert OnGrid(30, 0, 30) by {
      assert OnGrid(30, 30, 30);
    }
  }
}
