/**
 * Who may be contacted, on what, and when; and the log of what was sent and what was stopped
 * (packages/comms/src/windows.ts, preferences.ts and send.ts).
 */
module Comms {
  import opened Common

  // ---------------------------------------------------------------------------
  // Delivery windows
  // ---------------------------------------------------------------------------

  datatype Channel = Email | Sms | Voice

  const QUIET_HOURS_START_HOUR := 8
  const QUIET_HOURS_END_HOUR := 21

  /** The local hour in a zone, or None for a zone the platform does not know. */
  type Clock = (Instant, Text) -> Option<nat>

  predicate IsTimeRestricted(channel: Channel) {
    channel == Sms || channel == Voice
  }

  /** `withinDeliveryWindow`: an unrestricted channel, or a known local hour inside the window. */
  predicate WithinDeliveryWindow(clock: Clock, channel: Channel, instant: Instant, timezone: Option<Text>) {
    if !IsTimeRestricted(channel) then true
    else if timezone.None? || Blank(timezone.value) then false
    else
      var localHour := clock(instant, timezone.value);
      localHour.Some? && QUIET_HOURS_START_HOUR <= localHour.value < QUIET_HOURS_END_HOUR
  }

  const HOUR_MS := 3_600_000

  predicate OpenAfter(clock: Clock, channel: Channel, instant: Instant, timezone: Option<Text>, hours: nat) {
    WithinDeliveryWindow(clock, channel, instant + hours * HOUR_MS, timezone)
  }

  /** The first whole number of hours ahead, up to 48, at which the window is open. */
  ghost predicate FirstOpenStep(clock: Clock, channel: Channel, instant: Instant, timezone: Option<Text>,
      opening: Option<Instant>) {
    if !IsTimeRestricted(channel) || timezone.None? then opening.None?
    else if opening.None? then forall h: nat :: 1 <= h <= 48 ==> !OpenAfter(clock, channel, instant, timezone, h)
    else exists h: nat :: opening.value == instant + h * HOUR_MS && FirstOpenAt(clock, channel, instant, timezone, h)
  }

  ghost predicate FirstOpenAt(clock: Clock, channel: Channel, instant: Instant, timezone: Option<Text>, h: nat) {
    && 1 <= h <= 48
    && OpenAfter(clock, channel, instant, timezone, h)
    && forall g: nat :: 1 <= g < h ==> !OpenAfter(clock, channel, instant, timezone, g)
  }

  /** `nextWindowOpening` */
  method NextWindowOpening(clock: Clock, channel: Channel, instant: Instant, timezone: Option<Text>)
    returns (opening: Option<Instant>)
    ensures FirstOpenStep(clock, channel, instant, timezone, opening)
  {
    if !IsTimeRestricted(channel) || timezone.None? { return None; }
    for hours := 1 to 49
      invariant forall g: nat :: 1 <= g < hours ==> !OpenAfter(clock, channel, instant, timezone, g)
    {
      var candidate := instant + hours * HOUR_MS;
      if WithinDeliveryWindow(clock, channel, candidate, timezone) {
        assert FirstOpenAt(clock, channel, instant, timezone, hours);
        return Some(candidate);
      }
    }
    return None;
  }

  // ---------------------------------------------------------------------------
  // The first open step and the opening
  // ---------------------------------------------------------------------------

  const HORIZON_MS := 48 * HOUR_MS

  /** The hour a moment falls in, counted where hours begin `phase` milliseconds before they do in UTC. */
  function HourIndex(t: Instant, phase: int): int { (t + phase) / HOUR_MS }

  function HourOf(t: int): nat {
    t / HOUR_MS % 24
  }

  /**
   * Over the hours stepped through, the zone's clock changes only where an hour begins. It may change
   * by any amount there, as it does when daylight saving starts or ends.
   */
  ghost predicate ChangesOnTheHour(clock: Clock, zone: Text, instant: Instant, phase: int) {
    forall t: Instant, u: Instant ::
      (instant <= t <= instant + HORIZON_MS && instant <= u <= instant + HORIZON_MS
       && HourIndex(t, phase) == HourIndex(u, phase)) ==> clock(t, zone) == clock(u, zone)
  }

  /** A zone that goes from one offset to another on the hour, both whole hours from its phase. */
  lemma DaylightSavingChangesOnTheHour(clock: Clock, zone: Text, instant: Instant, phase: int,
      change: Instant, before: int, after: int)
    requires forall t: Instant ::
      clock(t, zone) == Some(HourOf(t + phase + (if t < change then before else after) * HOUR_MS))
    requires (change + phase) % HOUR_MS == 0
    ensures ChangesOnTheHour(clock, zone, instant, phase)
  {
    forall t: Instant, u: Instant | HourIndex(t, phase) == HourIndex(u, phase)
      ensures clock(t, zone) == clock(u, zone)
    {
      SameSideOfTheHour(t + phase, u + phase, change + phase);
      HoursLater(t + phase, if t < change then before else after);
      HoursLater(u + phase, if u < change then before else after);
    }
  }

  lemma SameSideOfTheHour(x: int, y: int, change: int)
    requires x / HOUR_MS == y / HOUR_MS && change % HOUR_MS == 0
    ensures x < change <==> y < change
  {
  }

  /** The least later instant at which the window is open. */
  ghost predicate IsNextOpening(clock: Clock, channel: Channel, instant: Instant, zone: Text, opening: Instant) {
    && instant < opening
    && WithinDeliveryWindow(clock, channel, opening, Some(zone))
    && forall t: Instant :: instant < t < opening ==> !WithinDeliveryWindow(clock, channel, t, Some(zone))
  }

  ghost predicate StaysClosed(clock: Clock, channel: Channel, instant: Instant, zone: Text) {
    forall t: Instant :: instant < t <= instant + HORIZON_MS ==> !WithinDeliveryWindow(clock, channel, t, Some(zone))
  }

  lemma HoursLater(t: int, h: int)
    ensures (t + h * HOUR_MS) / HOUR_MS == t / HOUR_MS + h
  {
  }

  /** The hour a moment falls in, when it is before the start of the `h`-th hour from now. */
  lemma HourBefore(x: int, y: int, h: int)
    requires x <= y < x + h * HOUR_MS - x % HOUR_MS
    ensures x / HOUR_MS <= y / HOUR_MS < x / HOUR_MS + h
  {
  }

  lemma StartOfHour(x: int, h: int)
    ensures (x + h * HOUR_MS - x % HOUR_MS) / HOUR_MS == x / HOUR_MS + h
  {
  }

  /** Each moment sees the clock of the step of its hour. */
  lemma AsAtItsStep(clock: Clock, channel: Channel, instant: Instant, zone: Text, phase: int, t: Instant, h: nat)
    requires ChangesOnTheHour(clock, zone, instant, phase) && instant <= t <= instant + HORIZON_MS && h <= 48
    requires HourIndex(t, phase) == HourIndex(instant, phase) + h
    ensures WithinDeliveryWindow(clock, channel, t, Some(zone)) <==> OpenAfter(clock, channel, instant, Some(zone), h)
  {
    HoursLater(instant + phase, h);
    assert HourIndex(instant + h * HOUR_MS, phase) == HourIndex(t, phase);
  }

  /** From a closed instant, the window opens where the hour of the first open step begins. */
  lemma OpeningIsTheStartOfTheStep(clock: Clock, channel: Channel, instant: Instant, zone: Text, phase: int, h: nat)
    requires ChangesOnTheHour(clock, zone, instant, phase)
    requires !WithinDeliveryWindow(clock, channel, instant, Some(zone))
    requires FirstOpenAt(clock, channel, instant, Some(zone), h)
    ensures IsNextOpening(clock, channel, instant, zone, instant + h * HOUR_MS - (instant + phase) % HOUR_MS)
  {
    var x := instant + phase;
    var opening := instant + h * HOUR_MS - x % HOUR_MS;
    assert opening + phase == x + h * HOUR_MS - x % HOUR_MS;
    StartOfHour(x, h);
    AsAtItsStep(clock, channel, instant, zone, phase, opening, h);
    forall t: Instant | instant < t < opening ensures !WithinDeliveryWindow(clock, channel, t, Some(zone)) {
      HourBefore(x, t + phase, h);
      var g: nat := HourIndex(t, phase) - HourIndex(instant, phase);
      AsAtItsStep(clock, channel, instant, zone, phase, t, g);
      assert g == 0 ==> instant + g * HOUR_MS == instant;
    }
  }

  /**
   * With the window closed: nothing is answered exactly when the window stays closed for 48 hours, and
   * what is answered is the instant at which it opens if and only if the instant asked about is on the
   * hour where the client is; otherwise it is late by the minutes past.
   */
  lemma FirstOpenStepIsTheOpeningExactly(clock: Clock, channel: Channel, instant: Instant, zone: Text, phase: int,
      opening: Option<Instant>)
    requires ChangesOnTheHour(clock, zone, instant, phase)
    requires !WithinDeliveryWindow(clock, channel, instant, Some(zone))
    requires FirstOpenStep(clock, channel, instant, Some(zone), opening)
    ensures opening.None? <==> StaysClosed(clock, channel, instant, zone)
    ensures opening.Some? ==>
      && IsNextOpening(clock, channel, instant, zone, opening.value - (instant + phase) % HOUR_MS)
      && (IsNextOpening(clock, channel, instant, zone, opening.value) <==> (instant + phase) % HOUR_MS == 0)
  {
    if opening.Some? {
      var h: nat :| opening.value == instant + h * HOUR_MS && FirstOpenAt(clock, channel, instant, Some(zone), h);
      OpeningIsTheStartOfTheStep(clock, channel, instant, zone, phase, h);
      assert instant < opening.value <= instant + HORIZON_MS;
    } else {
      forall t: Instant | instant < t <= instant + HORIZON_MS
        ensures !WithinDeliveryWindow(clock, channel, t, Some(zone))
      {
        ClosedInEveryHour(clock, channel, instant, zone, phase, t);
      }
    }
  }

  lemma ClosedInEveryHour(clock: Clock, channel: Channel, instant: Instant, zone: Text, phase: int, t: Instant)
    requires ChangesOnTheHour(clock, zone, instant, phase) && instant < t <= instant + HORIZON_MS
    requires !WithinDeliveryWindow(clock, channel, instant, Some(zone))
    requires FirstOpenStep(clock, channel, instant, Some(zone), None)
    ensures !WithinDeliveryWindow(clock, channel, t, Some(zone))
  {
    HoursLater(instant + phase, 48);
    var g: nat := HourIndex(t, phase) - HourIndex(instant, phase);
    AsAtItsStep(clock, channel, instant, zone, phase, t, g);
    assert g == 0 ==> instant + g * HOUR_MS == instant;
  }

  predicate OpenHour(hour: int) { QUIET_HOURS_START_HOUR <= hour % 24 < QUIET_HOURS_END_HOUR }

  /** For so many hours the zone's clock is at this offset, or no more than an hour from it. */
  ghost predicate RunsWithinAnHour(clock: Clock, zone: Text, instant: Instant, offset: int, hours: nat) {
    forall t: Instant :: instant <= t <= instant + hours * HOUR_MS ==> AnHourOff(clock(t, zone), t + offset)
  }

  ghost predicate AnHourOff(hour: Option<nat>, t: int) {
    hour == Some(HourOf(t)) || hour == Some(HourOf(t - HOUR_MS)) || hour == Some(HourOf(t + HOUR_MS))
  }

  /**
   * Through any change of up to an hour there is always an open step, no more than a day away: where
   * it would have been noon, it is between eleven and two.
   */
  lemma AnOpeningWithinADay(clock: Clock, channel: Channel, instant: Instant, zone: Text, offset: int)
    requires RunsWithinAnHour(clock, zone, instant, offset, 24) && !Blank(zone) && IsTimeRestricted(channel)
    ensures exists h: nat :: h <= 24 && FirstOpenAt(clock, channel, instant, Some(zone), h)
  {
    var now := (instant + offset) / HOUR_MS;
    var h: nat := 1 + (11 - now) % 24;
    var t := instant + h * HOUR_MS;
    HoursLater(instant + offset, h);
    assert t + offset == instant + offset + h * HOUR_MS;
    assert AnHourOff(clock(t, zone), t + offset);
    NearNoon(t + offset, clock(t, zone));
    LeastOpenStep(clock, channel, instant, Some(zone), h);
  }

  lemma NearNoon(t: int, hour: Option<nat>)
    requires t / HOUR_MS % 24 == 12 && AnHourOff(hour, t)
    ensures hour.Some? && 11 <= hour.value <= 13
  {
    HoursLater(t, 1);
    HoursLater(t, -1);
  }

  lemma {:induction false} LeastOpenStep(clock: Clock, channel: Channel, instant: Instant, timezone: Option<Text>,
      h: nat)
    requires 1 <= h <= 48 && OpenAfter(clock, channel, instant, timezone, h)
    ensures exists g: nat :: g <= h && FirstOpenAt(clock, channel, instant, timezone, g)
  {
    if g: nat :| 1 <= g < h && OpenAfter(clock, channel, instant, timezone, g) {
      LeastOpenStep(clock, channel, instant, timezone, g);
    } else {
      assert FirstOpenAt(clock, channel, instant, timezone, h);
    }
  }

  /** For so many hours the zone's clock is at this offset. */
  ghost predicate RunsEvenly(clock: Clock, zone: Text, instant: Instant, offset: int, hours: nat) {
    forall t: Instant :: instant <= t <= instant + hours * HOUR_MS ==> clock(t, zone) == Some(HourOf(t + offset))
  }

  lemma OpenAfterHours(clock: Clock, channel: Channel, instant: Instant, zone: Text, offset: int, hours: nat, h: nat)
    requires RunsEvenly(clock, zone, instant, offset, hours) && h <= hours && !Blank(zone) && IsTimeRestricted(channel)
    ensures OpenAfter(clock, channel, instant, Some(zone), h) <==> OpenHour((instant + offset) / HOUR_MS + h)
  {
    var t := instant + h * HOUR_MS;
    assert clock(t, zone) == Some(HourOf(t + offset));
    HoursLater(instant + offset, h);
    assert t + offset == instant + offset + h * HOUR_MS;
  }

  /**
   * With the window open already, the answer is an hour ahead while that is still inside the window,
   * and eight the next morning at the same minute once the last hour has begun.
   */
  lemma FirstOpenStepWhenOpen(clock: Clock, channel: Channel, instant: Instant, zone: Text, offset: int,
      opening: Option<Instant>)
    requires RunsEvenly(clock, zone, instant, offset, 12) && !Blank(zone) && IsTimeRestricted(channel)
    requires WithinDeliveryWindow(clock, channel, instant, Some(zone))
    requires FirstOpenStep(clock, channel, instant, Some(zone), opening)
    ensures opening == Some(instant + (if HourOf(instant + offset) == 20 then 12 else 1) * HOUR_MS)
  {
    var now := (instant + offset) / HOUR_MS;
    OpenAfterHours(clock, channel, instant, zone, offset, 12, 0);
    assert instant + 0 * HOUR_MS == instant;
    var first: nat := if now % 24 == 20 then 12 else 1;
    FirstOpenHour(now, first, first);
    OpenAfterHours(clock, channel, instant, zone, offset, 12, first);
    var h: nat :| opening.value == instant + h * HOUR_MS && FirstOpenAt(clock, channel, instant, Some(zone), h);
    if h < first {
      FirstOpenHour(now, first, h);
      OpenAfterHours(clock, channel, instant, zone, offset, 12, h);
    }
  }

  lemma FirstOpenHour(now: int, first: nat, h: nat)
    requires OpenHour(now) && first == (if now % 24 == 20 then 12 else 1) && 1 <= h <= first
    ensures OpenHour(now + h) <==> h == first
  {
  }

  /** At half past seven the window opens at eight, and the answer is half past eight. */
  lemma HalfPastSeven() returns (clock: Clock, zone: Text, instant: Instant)
    ensures RunsEvenly(clock, zone, instant, 0, 48) && !Blank(zone) && instant == 27_000_000
    ensures !WithinDeliveryWindow(clock, Sms, instant, Some(zone))
    ensures FirstOpenStep(clock, Sms, instant, Some(zone), Some(30_600_000))
    ensures IsNextOpening(clock, Sms, instant, zone, 28_800_000)
  {
    clock, zone, instant := (t: Instant, z: Text) => Some(HourOf(t)), [0x5A], 7 * HOUR_MS + HOUR_MS / 2;
    assert !IsWhitespace(zone[0]);
    OpenAfterHours(clock, Sms, instant, zone, 0, 48, 1);
    assert FirstOpenAt(clock, Sms, instant, Some(zone), 1);
    OpeningIsTheStartOfTheStep(clock, Sms, instant, zone, 0, 1);
  }

  // ---------------------------------------------------------------------------
  // Preferences
  // ---------------------------------------------------------------------------

  datatype Preferences = Preferences(
    emailAllowed: bool,
    smsAllowed: bool,
    voiceAllowed: bool,
    timezone: Option<Text>,
    preferredChannel: Option<Channel>,
    doNotCall: bool,
    doNotCallReason: Option<Text>)

  /** What a client who has said nothing permits. */
  const NOTHING_PERMITTED: Preferences := Preferences(false, false, false, None, None, false, None)

  predicate Allows(p: Preferences, channel: Channel) {
    match channel case Email => p.emailAllowed case Sms => p.smsAllowed case Voice => p.voiceAllowed
  }

  /** The client permits the channel, is not on do-not-call for it, and its hours are open. */
  predicate Permitted(clock: Clock, p: Preferences, channel: Channel, instant: Instant) {
    && Allows(p, channel)
    && !(p.doNotCall && IsTimeRestricted(channel))
    && WithinDeliveryWindow(clock, channel, instant, p.timezone)
  }

  /** Email needs the client's permission only; a text or a call also no instruction against it, and the hours. */
  lemma PermittedExactly(clock: Clock, p: Preferences, instant: Instant)
    ensures Permitted(clock, p, Email, instant) <==> p.emailAllowed
    ensures Permitted(clock, p, Sms, instant) <==> p.smsAllowed && MayDisturb(clock, p, instant)
    ensures Permitted(clock, p, Voice, instant) <==> p.voiceAllowed && MayDisturb(clock, p, instant)
  {
  }

  ghost predicate MayDisturb(clock: Clock, p: Preferences, instant: Instant) {
    && !p.doNotCall && p.timezone.Some? && !Blank(p.timezone.value)
    && exists hour: nat :: clock(instant, p.timezone.value) == Some(hour) && 8 <= hour <= 20
  }

  datatype Blocker = ChannelNotPermitted | DoNotCall | OutsideDeliveryWindow | NoTimezone

  /** `mayContact`: every reason against contact, and no other. */
  method MayContact(clock: Clock, p: Preferences, channel: Channel, instant: Instant) returns (blockers: seq<Blocker>)
    ensures blockers == [] <==> Permitted(clock, p, channel, instant)
    ensures ChannelNotPermitted in blockers <==> !Allows(p, channel)
    ensures DoNotCall in blockers <==> p.doNotCall && IsTimeRestricted(channel)
    ensures NoTimezone in blockers <==> IsTimeRestricted(channel) && p.timezone.None?
    ensures OutsideDeliveryWindow in blockers
       <==> p.timezone.Some? && !WithinDeliveryWindow(clock, channel, instant, p.timezone)
  {
    blockers := [];
    if !Allows(p, channel) { blockers := blockers + [ChannelNotPermitted]; }
    if p.doNotCall && IsTimeRestricted(channel) { blockers := blockers + [DoNotCall]; }
    if !WithinDeliveryWindow(clock, channel, instant, p.timezone) {
      blockers := blockers + [if p.timezone.None? then NoTimezone else OutsideDeliveryWindow];
    }
  }

  /** `[first, 'email', 'sms', 'voice']`, each at its first place. */
  function Order(first: Channel): seq<Channel> {
    match first
    case Email => [Email, Sms, Voice]
    case Sms => [Sms, Email, Voice]
    case Voice => [Voice, Email, Sms]
  }

  datatype UrgentRoute = UrgentRoute(channel: Option<Channel>, rerouted: bool)

  function FirstPermitted(clock: Clock, p: Preferences, order: seq<Channel>, instant: Instant): Option<Channel> {
    if order == [] then None
    else if Permitted(clock, p, order[0], instant) then Some(order[0])
    else FirstPermitted(clock, p, order[1..], instant)
  }

  function First(p: Preferences, preferred: Option<Channel>): Channel {
    if preferred.Some? then preferred.value else if p.preferredChannel.Some? then p.preferredChannel.value else Email
  }

  function Route(clock: Clock, p: Preferences, instant: Instant, preferred: Option<Channel>): UrgentRoute {
    var found := FirstPermitted(clock, p, Order(First(p, preferred)), instant);
    UrgentRoute(found, found.Some? && found.value != First(p, preferred))
  }

  /** `routeUrgent` */
  method RouteUrgent(clock: Clock, p: Preferences, instant: Instant, preferred: Option<Channel>)
    returns (route: UrgentRoute)
    ensures route == Route(clock, p, instant, preferred)
  {
    var first := Email;
    if p.preferredChannel.Some? { first := p.preferredChannel.value; }
    if preferred.Some? { first := preferred.value; }
    var order := Order(first);
    for i := 0 to |order|
      invariant FirstPermitted(clock, p, order, instant) == FirstPermitted(clock, p, order[i..], instant)
    {
      var blockers := MayContact(clock, p, order[i], instant);
      if blockers == [] { return UrgentRoute(Some(order[i]), order[i] != first); }
      assert order[i..][1..] == order[i + 1..];
    }
    return UrgentRoute(None, false);
  }

  lemma {:induction false} FirstPermittedExactly(clock: Clock, p: Preferences, order: seq<Channel>, instant: Instant)
    ensures var found := FirstPermitted(clock, p, order, instant);
      && (found.None? <==> forall c :: c in order ==> !Permitted(clock, p, c, instant))
      && (found.Some? ==>
         exists i :: 0 <= i < |order| && found.value == order[i] && Permitted(clock, p, order[i], instant)
                                      && forall j :: 0 <= j < i ==> !Permitted(clock, p, order[j], instant))
  {
    if order != [] {
      FirstPermittedExactly(clock, p, order[1..], instant);
      if !Permitted(clock, p, order[0], instant) && FirstPermitted(clock, p, order[1..], instant).Some? {
        var rest := order[1..];
        var i :| 0 <= i < |rest| && FirstPermitted(clock, p, rest, instant).value == rest[i]
          && Permitted(clock, p, rest[i], instant)
                 && forall j :: 0 <= j < i ==> !Permitted(clock, p, rest[j], instant);
        assert forall j :: 0 < j < |order| ==> order[j] == rest[j - 1];
        assert order[i + 1] == rest[i];
      }
    }
  }

  /**
   * Urgency finds a channel exactly when some channel may be used, and what it finds may be used;
   * the wanted channel is taken whenever it may be.
   */
  lemma UrgencyOnlyReroutes(clock: Clock, p: Preferences, instant: Instant, preferred: Option<Channel>)
    ensures var route := Route(clock, p, instant, preferred);
      && (route.channel.Some? <==> exists c: Channel :: Permitted(clock, p, c, instant))
      && (route.channel.Some? ==> Permitted(clock, p, route.channel.value, instant))
      && (route.rerouted <==> route.channel.Some? && !Permitted(clock, p, First(p, preferred), instant))
  {
    var first := First(p, preferred);
    var order := Order(first);
    FirstPermittedExactly(clock, p, order, instant);
    assert order[0] in order && order[1] in order && order[2] in order;
    assert Email in order && Sms in order && Voice in order;
    forall c: Channel ensures c in order { assert c == Email || c == Sms || c == Voice; }
    assert order[0] == first;
  }

  // ---------------------------------------------------------------------------
  // Sending
  // ---------------------------------------------------------------------------

  datatype CommsStatus = ApprovedToSend | Stopped | Received

  /** A row of the communication log. */
  datatype Communication = Communication(
    clientId: Text,
    channel: Channel,
    status: CommsStatus,
    body: Text,
    urgentReroute: bool,
    occurredAt: Instant)

  datatype Update = Update(
    emailAllowed: Option<bool>,
    smsAllowed: Option<bool>,
    voiceAllowed: Option<bool>,
    timezone: Option<Text>,
    preferredChannel: Option<Channel>)

  datatype Message = Message(clientId: Text, channel: Channel, body: Text, urgent: bool, now: Instant)

  datatype Archive = Archive(preferences: map<Text, Preferences>, log: seq<Communication>)

  const EMPTY_ARCHIVE: Archive := Archive(map[], [])

  /** The exported operations; `chain` is what the middleware chain answers if it is asked. */
  datatype Step =
    | SetPreferences(clientId: Text, update: Update)
    | SetDoNotCall(clientId: Text, reason: Text)
    | LiftDoNotCall(clientId: Text, clientRequestReference: Text)
    | Send(message: Message, chain: Outcome<()>)
    | RecordInbound(clientId: Text, channel: Channel, body: Text, receivedAt: Instant)

  /** `preferencesFor` */
  function PreferencesFor(s: Archive, clientId: Text): Preferences {
    if clientId in s.preferences then s.preferences[clientId] else NOTHING_PERMITTED
  }

  function Or<T>(update: Option<T>, current: T): T {
    if update.Some? then update.value else current
  }

  function Updated(p: Preferences, u: Update): Preferences {
    Preferences(
      Or(u.emailAllowed, p.emailAllowed),
      Or(u.smsAllowed, p.smsAllowed),
      Or(u.voiceAllowed, p.voiceAllowed),
      if u.timezone.Some? then u.timezone else p.timezone,
      if u.preferredChannel.Some? then u.preferredChannel else p.preferredChannel,
      p.doNotCall,
      p.doNotCallReason)
  }

  /** The channel a message would go out on, and whether the preference gate lets it. */
  datatype Gate = Gate(channel: Channel, rerouted: bool, open: bool)

  function PreferenceGate(clock: Clock, p: Preferences, m: Message): Gate {
    if m.urgent then
      var route := Route(clock, p, m.now, Some(m.channel));
      if route.channel.None? then Gate(m.channel, false, false)
      else Gate(route.channel.value, route.rerouted, Permitted(clock, p, route.channel.value, m.now))
    else Gate(m.channel, false, Permitted(clock, p, m.channel, m.now))
  }

  function LogEntry(clock: Clock, s: Archive, step: Step): Communication
    requires step.Send?
  {
    var m := step.message;
    var gate := PreferenceGate(clock, PreferencesFor(s, m.clientId), m);
    var status := if gate.open && step.chain.Ok? then ApprovedToSend else Stopped;
    Communication(m.clientId, gate.channel, status, m.body, gate.rerouted, m.now)
  }

  /** An approved message is reported as not built: no provider delivers it. */
  function Verdict(clock: Clock, s: Archive, step: Step): Outcome<()> {
    match step
    case SetPreferences(_, update) => if update.timezone.Some? && Blank(update.timezone.value) then Refused else Ok(())
    case SetDoNotCall(_, reason) => if Blank(reason) then Refused else Ok(())
    case LiftDoNotCall(clientId, reference) =>
      if Blank(reference) then Refused else if clientId !in s.preferences then NoData else Ok(())
    case Send(m, _) =>
      if Blank(m.body) then Refused else if LogEntry(clock, s, step).status == Stopped then Refused else NotBuilt
    case RecordInbound(_, _, _, _) => Ok(())
  }

  function Next(clock: Clock, s: Archive, step: Step): Archive {
    match step
    case SetPreferences(clientId, update) =>
      if Verdict(clock, s, step).Ok?
        then s.(preferences := s.preferences[clientId := Updated(PreferencesFor(s, clientId), update)]) else s
    case SetDoNotCall(clientId, reason) =>
      if Verdict(clock, s, step).Ok?
      then s.(preferences :=
        s.preferences[clientId := PreferencesFor(s, clientId).(doNotCall := true, doNotCallReason := Some(reason))])
      else s
    case LiftDoNotCall(clientId, _) =>
      if Verdict(clock, s, step).Ok?
      then s.(preferences :=
        s.preferences[clientId := s.preferences[clientId].(doNotCall := false, doNotCallReason := None)])
      else s
    case Send(m, _) => if Blank(m.body) then s else s.(log := s.log + [LogEntry(clock, s, step)])
    case RecordInbound(clientId, channel, body, receivedAt) =>
      s.(log := s.log + [Communication(clientId, channel, Received, body, false, receivedAt)])
  }

  function Run(clock: Clock, steps: seq<Step>): Archive {
    if steps == [] then EMPTY_ARCHIVE else Next(clock, Run(clock, steps[..|steps| - 1]), steps[|steps| - 1])
  }

  /** What must have held when a message was approved. */
  ghost predicate Lawful(clock: Clock, p: Preferences, c: Communication) {
    && Allows(p, c.channel)
    && (c.channel != Email ==>
          && !p.doNotCall
          && p.timezone.Some?
          && var hour := clock(c.occurredAt, p.timezone.value);
             hour.Some? && 8 <= hour.value < 21)
  }

  /** A message is approved exactly when the gate and the chain both let it, whatever its urgency. */
  lemma ApprovedExactly(clock: Clock, s: Archive, step: Step)
    requires step.Send? && !Blank(step.message.body)
    ensures var p := PreferencesFor(s, step.message.clientId);
      var m := step.message;
      && (Verdict(clock, s, step).NotBuilt? <==>
            && step.chain.Ok?
            && if m.urgent then exists c: Channel :: Permitted(clock, p, c, m.now)
               else Permitted(clock, p, m.channel, m.now))
      && (Verdict(clock, s, step).NotBuilt? || Verdict(clock, s, step).Refused?)
    ensures LogEntry(clock, s, step).status == ApprovedToSend
      ==> Lawful(clock, PreferencesFor(s, step.message.clientId), LogEntry(clock, s, step))
  {
    UrgencyOnlyReroutes(clock, PreferencesFor(s, step.message.clientId), step.message.now, Some(step.message.channel));
  }

  /** Row k of the log was written by step n, from the preferences in force then, lawfully. */
  ghost predicate ApprovedAt(clock: Clock, steps: seq<Step>, n: nat, k: nat, c: Communication) {
    && n < |steps| && steps[n].Send?
    && steps[n].message.clientId == c.clientId && steps[n].message.now == c.occurredAt
    && steps[n].message.body == c.body
    && |Run(clock, steps[..n]).log| == k
    && Lawful(clock, PreferencesFor(Run(clock, steps[..n]), c.clientId), c)
  }

  /**
   * In every run, each message in the log that was approved went to a client who permitted its
   * channel at that moment; and if it was a text or a call, to one who was not on do-not-call, at
   * an hour of their own zone from 8 up to 21.
   */
  lemma {:induction false} ApprovedMessagesAreLawful(clock: Clock, steps: seq<Step>, k: nat)
    requires k < |Run(clock, steps).log| && Run(clock, steps).log[k].status == ApprovedToSend
    ensures exists n: nat :: ApprovedAt(clock, steps, n, k, Run(clock, steps).log[k])
  {
    if steps != [] {
      var m := |steps| - 1;
      var before, last := Run(clock, steps[..m]), steps[m];
      if k < |before.log| {
        ApprovedMessagesAreLawful(clock, steps[..m], k);
        var n: nat :| ApprovedAt(clock, steps[..m], n, k, before.log[k]);
        assert steps[..m][..n] == steps[..n];
        assert ApprovedAt(clock, steps, n, k, Run(clock, steps).log[k]);
      } else {
        ApprovedExactly(clock, before, last);
        assert ApprovedAt(clock, steps, m, k, Run(clock, steps).log[k]);
      }
    }
  }

  /** Only lifting clears a do-not-call instruction, and only on a stated request of the client. */
  lemma OnlyLiftingClears(clock: Clock, s: Archive, step: Step, clientId: Text)
    requires PreferencesFor(s, clientId).doNotCall
    ensures !PreferencesFor(Next(clock, s, step), clientId).doNotCall
       <==> step.LiftDoNotCall? && step.clientId == clientId && !Blank(step.clientRequestReference)
  {
  }

  function RunFrom(clock: Clock, s: Archive, steps: seq<Step>): Archive {
    if steps == [] then s else Next(clock, RunFrom(clock, s, steps[..|steps| - 1]), steps[|steps| - 1])
  }

  /** From the start, a run is a run. */
  lemma {:induction false} RunFromTheStart(clock: Clock, steps: seq<Step>)
    ensures RunFrom(clock, EMPTY_ARCHIVE, steps) == Run(clock, steps)
  {
    if steps != [] { RunFromTheStart(clock, steps[..|steps| - 1]); }
  }

  /** A client on do-not-call is neither texted nor called until somebody lifts it, urgent or not. */
  lemma {:induction false} NoCallUntilLifted(clock: Clock, s: Archive, steps: seq<Step>, clientId: Text)
    requires PreferencesFor(s, clientId).doNotCall
    requires forall i :: 0 <= i < |steps| ==> !(steps[i].LiftDoNotCall? && steps[i].clientId == clientId)
    ensures var after := RunFrom(clock, s, steps);
      && PreferencesFor(after, clientId).doNotCall
      && |s.log| <= |after.log|
      && forall k :: |s.log| <= k < |after.log| && after.log[k].clientId == clientId && after.log[k].channel != Email
           ==> after.log[k].status != ApprovedToSend
  {
    if steps != [] {
      var before, last := steps[..|steps| - 1], steps[|steps| - 1];
      NoCallUntilLifted(clock, s, before, clientId);
      var previous := RunFrom(clock, s, before);
      OnlyLiftingClears(clock, previous, last, clientId);
      if last.Send? && !Blank(last.message.body) { ApprovedExactly(clock, previous, last); }
    }
  }

  /** Of a client who was never heard nothing is known and nothing is permitted. */
  lemma SilenceIsNoPermission(clock: Clock, s: Archive, clientId: Text, channel: Channel, instant: Instant)
    requires clientId !in s.preferences
    ensures var p := PreferencesFor(s, clientId);
      && !Permitted(clock, p, channel, instant)
      && p.timezone.None? && p.preferredChannel.None? && !p.doNotCall && p.doNotCallReason.None?
  {
  }

  /** Every message with something in it is logged, as it was sent or stopped, or received. */
  lemma EveryMessageIsLogged(clock: Clock, s: Archive, step: Step)
    requires step.RecordInbound? || (step.Send? && !Blank(step.message.body))
    ensures var log := Next(clock, s, step).log;
      && |log| == |s.log| + 1 && log[..|s.log|] == s.log
      && match step
         case RecordInbound(clientId, channel, body, at) =>
           log[|s.log|] == Communication(clientId, channel, Received, body, false, at)
         case Send(m, _) =>
           var entry := log[|s.log|];
           && entry.clientId == m.clientId && entry.body == m.body && entry.occurredAt == m.now
           && (entry.status == ApprovedToSend <==> Verdict(clock, s, step).NotBuilt?) && entry.status != Received
           && (entry.urgentReroute <==> m.urgent && entry.channel != m.channel)
           && (!m.urgent ==> entry.channel == m.channel)
         case _ => true
  {
    if step.Send? {
      var p, m := PreferencesFor(s, step.message.clientId), step.message;
      UrgencyOnlyReroutes(clock, p, m.now, Some(m.channel));
      RoutedWhenPermitted(clock, p, m.now, m.channel);
    }
  }

  lemma RoutedWhenPermitted(clock: Clock, p: Preferences, instant: Instant, channel: Channel)
    ensures var route := Route(clock, p, instant, Some(channel));
      route.channel.Some? ==> (route.rerouted <==> route.channel.value != channel)
  {
  }

  /** Urgency starts from the channel wanted, else the client's own, else email. */
  lemma StartsWhereWanted(clock: Clock, p: Preferences, instant: Instant)
    ensures forall c: Channel :: Permitted(clock, p, c, instant) ==>
      Route(clock, p, instant, Some(c)) == UrgentRoute(Some(c), false)
    ensures p.preferredChannel.Some? && Permitted(clock, p, p.preferredChannel.value, instant) ==>
      Route(clock, p, instant, None) == UrgentRoute(p.preferredChannel, false)
    ensures p.preferredChannel.None? && p.emailAllowed ==>
      Route(clock, p, instant, None) == UrgentRoute(Some(Email), false)
  {
  }

  /** In every run a reason is kept exactly while the instruction stands. */
  lemma {:induction false} ReasonsGoWithInstructions(clock: Clock, steps: seq<Step>, clientId: Text)
    ensures var p := PreferencesFor(Run(clock, steps), clientId); p.doNotCall <==> p.doNotCallReason.Some?
  {
    if steps != [] { ReasonsGoWithInstructions(clock, steps[..|steps| - 1], clientId); }
  }

  /** What is asked for without saying why, or with nothing in it, is refused and changes nothing. */
  lemma RefusedWithoutAReason(clock: Clock, s: Archive, step: Step)
    ensures Verdict(clock, s, step).Refused? <==> match step
      case SetPreferences(_, update) => update.timezone.Some? && Blank(update.timezone.value)
      case SetDoNotCall(_, reason) => Blank(reason)
      case LiftDoNotCall(_, reference) => Blank(reference)
      case Send(m, _) => Blank(m.body) || LogEntry(clock, s, step).status == Stopped
      case RecordInbound(_, _, _, _) => false
    ensures Verdict(clock, s, step).NoData?
       <==> step.LiftDoNotCall? && !Blank(step.clientRequestReference) && step.clientId !in s.preferences
    ensures Verdict(clock, s, step).Refused? && !step.Send? ==> Next(clock, s, step) == s
  {
  }

  /** A do-not-call instruction is recorded with its reason, beside what was permitted before. */
  lemma InstructionRecorded(clock: Clock, s: Archive, clientId: Text, reason: Text)
    requires !Blank(reason)
    ensures var p := PreferencesFor(s, clientId);
      PreferencesFor(Next(clock, s, SetDoNotCall(clientId, reason)), clientId)
      == Preferences(p.emailAllowed, p.smsAllowed, p.voiceAllowed, p.timezone, p.preferredChannel, true, Some(reason))
  {
  }

  /** What an update says of a channel. */
  ghost function Said(u: Update, channel: Channel): Option<bool> {
    match channel case Email => u.emailAllowed case Sms => u.smsAllowed case Voice => u.voiceAllowed
  }

  /** An update sets what it says of each channel, and leaves the rest. */
  lemma PreferencesAsSaid(clock: Clock, s: Archive, step: Step, channel: Channel)
    requires step.SetPreferences? && Verdict(clock, s, step).Ok?
    ensures var p, p' := PreferencesFor(s, step.clientId), PreferencesFor(Next(clock, s, step), step.clientId);
      && Allows(p', channel) == (if Said(step.update, channel).Some? then Said(step.update, channel).value
                                 else Allows(p, channel))
      && p'.timezone == (if step.update.timezone.Some? then step.update.timezone else p.timezone)
      && p'.preferredChannel
         == (if step.update.preferredChannel.Some? then step.update.preferredChannel else p.preferredChannel)
      && p'.doNotCall == p.doNotCall && p'.doNotCallReason == p.doNotCallReason
  {
  }

  /** After a client withdraws a channel, nothing is approved on it for that client until it is allowed again. */
  lemma {:induction false} WithdrawnUntilAllowed(clock: Clock, s: Archive, withdrawal: Step, steps: seq<Step>,
      channel: Channel)
    requires withdrawal.SetPreferences? && Verdict(clock, s, withdrawal).Ok?
    requires Said(withdrawal.update, channel) == Some(false)
    requires forall i :: 0 <= i < |steps| ==>
      !(steps[i].SetPreferences? && steps[i].clientId == withdrawal.clientId
        && Said(steps[i].update, channel) == Some(true))
    ensures var after, clientId := RunFrom(clock, Next(clock, s, withdrawal), steps), withdrawal.clientId;
      && !Allows(PreferencesFor(after, clientId), channel)
      && |s.log| <= |after.log|
      && forall k :: |s.log| <= k < |after.log| && after.log[k].clientId == clientId && after.log[k].channel == channel
           ==> after.log[k].status != ApprovedToSend
  {
    if steps == [] {
      PreferencesAsSaid(clock, s, withdrawal, channel);
    } else {
      var before, last := steps[..|steps| - 1], steps[|steps| - 1];
      WithdrawnUntilAllowed(clock, s, withdrawal, before, channel);
      var previous := RunFrom(clock, Next(clock, s, withdrawal), before);
      if last.Send? && !Blank(last.message.body) { ApprovedExactly(clock, previous, last); }
    }
  }

  // ---------------------------------------------------------------------------
  // The operations
  // ---------------------------------------------------------------------------

  class Desk {
    const clock: Clock
    var preferences: map<Text, Preferences>
    var log: seq<Communication>

    ghost function State(): Archive
      reads this
    {
      Archive(preferences, log)
    }

    constructor (clock: Clock)
      ensures State() == EMPTY_ARCHIVE && this.clock == clock
    {
      this.clock := clock;
      preferences, log := map[], [];
    }

    method PreferencesOf(clientId: Text) returns (p: Preferences)
      ensures p == PreferencesFor(State(), clientId)
    {
      p := if clientId in preferences then preferences[clientId] else NOTHING_PERMITTED;
    }

    method SetPreferences(clientId: Text, update: Update) returns (outcome: Outcome<()>)
      modifies this
      ensures var step := Step.SetPreferences(clientId, update);
        outcome == Verdict(clock, old(State()), step) && State() == Next(clock, old(State()), step)
    {
      if update.timezone.Some? && Blank(update.timezone.value) { return Refused; }
      var row := PreferencesOf(clientId);
      preferences := preferences[clientId := Preferences(
        Or(update.emailAllowed, row.emailAllowed),
        Or(update.smsAllowed, row.smsAllowed),
        Or(update.voiceAllowed, row.voiceAllowed),
        if update.timezone.Some? then update.timezone else row.timezone,
        if update.preferredChannel.Some? then update.preferredChannel else row.preferredChannel,
        row.doNotCall,
        row.doNotCallReason)];
      return Ok(());
    }

    method SetDoNotCall(clientId: Text, reason: Text) returns (outcome: Outcome<()>)
      modifies this
      ensures var step := Step.SetDoNotCall(clientId, reason);
        outcome == Verdict(clock, old(State()), step) && State() == Next(clock, old(State()), step)
    {
      if Blank(reason) { return Refused; }
      var current := PreferencesOf(clientId);
      preferences := preferences[clientId := current.(doNotCall := true, doNotCallReason := Some(reason))];
      return Ok(());
    }

    method LiftDoNotCall(clientId: Text, clientRequestReference: Text) returns (outcome: Outcome<()>)
      modifies this
      ensures var step := Step.LiftDoNotCall(clientId, clientRequestReference);
        outcome == Verdict(clock, old(State()), step) && State() == Next(clock, old(State()), step)
    {
      if Blank(clientRequestReference) { return Refused; }
      if clientId !in preferences { return NoData; }
      preferences := preferences[clientId := preferences[clientId].(doNotCall := false, doNotCallReason := None)];
      return Ok(());
    }

    method Send(m: Message, chain: Outcome<()>) returns (outcome: Outcome<()>)
      modifies this
      ensures var step := Step.Send(m, chain);
        outcome == Verdict(clock, old(State()), step) && State() == Next(clock, old(State()), step)
    {
      if Blank(m.body) { return Refused; }
      var p := PreferencesOf(m.clientId);
      var channel, rerouted := m.channel, false;
      if m.urgent {
        var route := RouteUrgent(clock, p, m.now, Some(m.channel));
        if route.channel.None? {
          LogBlocked(m, channel, false);
          return Refused;
        }
        channel, rerouted := route.channel.value, route.rerouted;
      }
      var blockers := MayContact(clock, p, channel, m.now);
      if blockers != [] || !chain.Ok? {
        LogBlocked(m, channel, rerouted);
        return Refused;
      }
      log := log + [Communication(m.clientId, channel, ApprovedToSend, m.body, rerouted, m.now)];
      return NotBuilt;
    }

    method LogBlocked(m: Message, channel: Channel, rerouted: bool)
      modifies this`log
      ensures log == old(log) + [Communication(m.clientId, channel, Stopped, m.body, rerouted, m.now)]
    {
      log := log + [Communication(m.clientId, channel, Stopped, m.body, rerouted, m.now)];
    }

    method RecordInbound(clientId: Text, channel: Channel, body: Text, receivedAt: Instant)
      modifies this
      ensures State() == Next(clock, old(State()), Step.RecordInbound(clientId, channel, body, receivedAt))
    {
      log := log + [Communication(clientId, channel, Received, body, false, receivedAt)];
    }
  }
}
