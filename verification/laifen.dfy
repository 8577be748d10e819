/** The `Laifen` device object: connection retries, notification set-up and
    tear-down, command writes, polling and the notification callback, plus the
    scan filter. The Bluetooth transport is not modelled: every call into it
    is an outcome handed in as a parameter, indexed by attempt. */
module Device {
  import opened Wrappers
  import opened PyText
  import opened Hex
  import opened Codec

  /** The number of connection attempts `connect` makes before giving up. */
  const RETRY_LIMIT: nat := 10

  /** The number of `start_notify` attempts `start_notifications` makes. */
  const NOTIFY_ATTEMPTS: nat := 5

  /** The text of the error that `start_notifications` treats as success. */
  const ALREADY_ENABLED: string := "Notifications are already enabled"

  /** One `client.connect()` under its 60-second `wait_for`. */
  datatype ConnectOutcome =
    | Linked          // returned, and the client reports connected
    | NotLinked       // returned, but the client does not report connected
    | ConnectError    // raised BleakError: logged, then a 5 s sleep
    | ConnectTimeout  // the 60 s limit expired: asyncio.TimeoutError, not caught

  /** One `client.start_notify(...)`. */
  datatype NotifyOutcome = NotifyStarted | NotifyError(message: string)

  /** One `client.read_gatt_char(...)`: the bytes read, or a BleakError or
      the expiry of the 20-second read timeout. */
  datatype ReadOutcome = ReadData(data: seq<Byte>) | ReadError

  /** How a call that goes through `connect` ends: it returns a value, or the
      connect timeout escapes it as an exception. */
  datatype Exit<T> = Returned(value: T) | TimedOut

  /** An attempt after which the loop tries again. */
  predicate Retried(o: ConnectOutcome) {
    o == NotLinked || o == ConnectError
  }

  /** Some attempt from `i` on, within the limit, has outcome `o`. */
  predicate SomeAttempt(attempt: nat -> ConnectOutcome, i: nat, o: ConnectOutcome) {
    exists k :: i <= k < RETRY_LIMIT && attempt(k) == o
  }

  /** What the retry loop of `connect` returns when started at attempt `i`
      on a client that is not connected. */
  function ConnectResult(attempt: nat -> ConnectOutcome, i: nat): (r: Exit<bool>)
    requires i <= RETRY_LIMIT
    ensures r == TimedOut ==> SomeAttempt(attempt, i, ConnectTimeout)
    ensures r == Returned(true) ==> SomeAttempt(attempt, i, Linked)
    decreases RETRY_LIMIT - i
  {
    if i == RETRY_LIMIT then Returned(false)
    else match attempt(i)
      case Linked => Returned(true)
      case ConnectTimeout => TimedOut
      case _ => ConnectResult(attempt, i + 1)
  }

  /** How many `client.connect()` calls that loop makes from attempt `i` on. */
  function ConnectTries(attempt: nat -> ConnectOutcome, i: nat): (n: nat)
    requires i <= RETRY_LIMIT
    ensures n <= RETRY_LIMIT - i
    ensures i < RETRY_LIMIT ==> n >= 1
    decreases RETRY_LIMIT - i
  {
    if i == RETRY_LIMIT then 0
    else if Retried(attempt(i)) then 1 + ConnectTries(attempt, i + 1)
    else 1
  }

  /** The loop returns true exactly when some attempt within the limit
      connects and every attempt before it failed and was retried. */
  lemma {:induction false} ConnectSucceedsFrom(attempt: nat -> ConnectOutcome, i: nat)
    requires i <= RETRY_LIMIT
    ensures ConnectResult(attempt, i) == Returned(true) <==>
      exists k :: i <= k < RETRY_LIMIT && attempt(k) == Linked && forall j :: i <= j < k ==> Retried(attempt(j))
    decreases RETRY_LIMIT - i
  {
    if i < RETRY_LIMIT {
      ConnectSucceedsFrom(attempt, i + 1);
      if ConnectResult(attempt, i) == Returned(true) && attempt(i) != Linked {
        var k :| i + 1 <= k < RETRY_LIMIT && attempt(k) == Linked && forall j :: i + 1 <= j < k ==> Retried(attempt(j));
        assert forall j :: i <= j < k ==> Retried(attempt(j));
      }
    }
  }

  /** The loop returns false exactly when all ten attempts fail, and then it
      has made ten attempts. */
  lemma {:induction false} ConnectExhaustedFrom(attempt: nat -> ConnectOutcome, i: nat)
    requires i <= RETRY_LIMIT
    ensures ConnectResult(attempt, i) == Returned(false) <==> forall j :: i <= j < RETRY_LIMIT ==> Retried(attempt(j))
    ensures ConnectResult(attempt, i) == Returned(false) ==> ConnectTries(attempt, i) == RETRY_LIMIT - i
    decreases RETRY_LIMIT - i
  {
    if i < RETRY_LIMIT {
      ConnectExhaustedFrom(attempt, i + 1);
    }
  }

  /** A start-notify attempt after which the loop tries again: an error whose
      text does not say notifications are already on. */
  predicate NotifyFails(o: NotifyOutcome): (b: bool)
    ensures b ==> o.NotifyError?
    ensures o.NotifyError? && |o.message| < |ALREADY_ENABLED| ==> b
  {
    o.NotifyError? && !Contains(o.message, ALREADY_ENABLED)
  }

  /** The phrase may sit anywhere in the error text, as in the text BlueZ
      gives: such an error ends the loop like a success. */
  lemma AlreadyEnabledAnywhere(before: string, after: string)
    ensures !NotifyFails(NotifyError(before + ALREADY_ENABLED + after))
  {
    var message := before + ALREADY_ENABLED + after;
    assert message[|before|..|before| + |ALREADY_ENABLED|] == ALREADY_ENABLED;
    assert OccursAt(message, ALREADY_ENABLED, |before|);
  }

  /** Every one of the five start-notify attempts fails. */
  predicate NotifyExhausted(notify: nat -> NotifyOutcome) {
    forall j :: 0 <= j < NOTIFY_ATTEMPTS ==> NotifyFails(notify(j))
  }

  /** How many `start_notify` calls `start_notifications` makes from attempt `i` on. */
  function NotifyTries(notify: nat -> NotifyOutcome, i: nat): (n: nat)
    requires i <= NOTIFY_ATTEMPTS
    ensures n <= NOTIFY_ATTEMPTS - i
    ensures i < NOTIFY_ATTEMPTS ==> n >= 1
    decreases NOTIFY_ATTEMPTS - i
  {
    if i == NOTIFY_ATTEMPTS then 0
    else if NotifyFails(notify(i)) then 1 + NotifyTries(notify, i + 1)
    else 1
  }

  /** What polling keeps of a non-empty frame: its parse, unless the parsed
      status is None. */
  function Kept(data: seq<Byte>): (r: Option<Reading>)
    ensures r.Some? ==> r.value == ParseData(Some(data)) && r.value.decoded.Some?
  {
    var parsed := ParseData(Some(data));
    if Get(parsed, "status") != NoneValue then Some(parsed) else None
  }

  /** The reading one `gatherdata` call stores, if any, from its replies: an
      empty read is retried by the recursive call, the first non-empty read
      is parsed and kept only when its status is not None, and a read error
      (or the end of the 20-second window, when the reads run out) stores
      nothing. */
  function Polled(replies: seq<ReadOutcome>): (r: Option<Reading>)
    ensures r.Some? ==> r.value.decoded.Some?
  {
    if replies == [] then None
    else match replies[0]
      case ReadError => None
      case ReadData(data) =>
        if data == [] then Polled(replies[1..]) else Kept(data)
  }

  /** A non-empty read is stored exactly when its frame is decodable, as the
      reading `parse_data` makes of it. */
  lemma PolledFrame(data: seq<Byte>, rest: seq<ReadOutcome>)
    requires data != []
    ensures Polled([ReadData(data)] + rest) == if Decodable(data) then Some(ParseData(Some(data))) else None
  {
    var replies := [ReadData(data)] + rest;
    assert replies[0] == ReadData(data);
  }

  /** Empty reads in front are skipped. */
  lemma {:induction false} PolledSkipsEmpty(replies: seq<ReadOutcome>, k: nat)
    requires k <= |replies|
    requires forall j :: 0 <= j < k ==> replies[j] == ReadData([])
    ensures Polled(replies) == Polled(replies[k..])
  {
    if k > 0 {
      assert replies[0] == ReadData([]);
      PolledSkipsEmpty(replies[1..], k - 1);
      assert replies[1..][k - 1..] == replies[k..];
    }
  }

  /** Polling does not test the preamble: a decodable frame that the
      notification callback would reject is still stored. */
  lemma PollingIgnoresPreamble(data: seq<Byte>)
    requires Decodable(data) && !Accepts(data)
    ensures Polled([ReadData(data)]) == Some(ParseData(Some(data)))
  {
    PolledFrame(data, []);
    assert [ReadData(data)] + [] == [ReadData(data)];
  }

  /** Such frames exist: 24 zero bytes decode but lack the preamble. */
  lemma UnacceptedDecodableFrame()
    ensures Decodable(seq(24, _ => 0)) && !Accepts(seq(24, _ => 0))
  {
  }

  /** One pass of `gatherdata`: what `read_gatt_char` gives, and whether
      the client still reports a link when the pass is over. The link can
      drop at any time while a pass runs, the two-second sleep after an
      empty read included. */
  datatype Pass = Pass(read: ReadOutcome, linkAfter: bool)

  /** How a `gatherdata` call leaves the device: how it exits, whether the
      client reports a link, whether notifications are on, and the reading
      it stored and published, if any. */
  datatype Gathered = Gathered(exit: Exit<()>, linked: bool, notifying: bool, stored: Option<Reading>)

  /** The outcomes still to come once `n` calls have been made. */
  function Shift<T>(outcomes: nat -> T, n: nat): (rest: nat -> T)
    ensures forall k: nat :: rest(k) == outcomes(k + n)
  {
    (k: nat) => outcomes(k + n)
  }

  /** The read outcomes of the passes, in order. */
  function ReadsOf(passes: seq<Pass>): (got: seq<ReadOutcome>)
    ensures |got| == |passes|
    ensures forall i :: 0 <= i < |passes| ==> got[i] == passes[i].read
  {
    seq(|passes|, i requires 0 <= i < |passes| => passes[i].read)
  }

  /** The reading is the parse of a frame some pass read. */
  predicate ReadFrom(passes: seq<Pass>, r: Reading) {
    exists i :: 0 <= i < |passes| && passes[i].read.ReadData? && r == ParseData(Some(passes[i].read.data))
  }

  /** A frame a later pass read was read by the passes. */
  lemma ReadFromLater(passes: seq<Pass>, stored: Option<Reading>)
    requires passes != []
    requires stored.Some? ==> ReadFrom(passes[1..], stored.value)
    ensures stored.Some? ==> ReadFrom(passes, stored.value)
  {
    if stored.Some? {
      var j :| 0 <= j < |passes[1..]| && passes[1..][j].read.ReadData? &&
               stored.value == ParseData(Some(passes[1..][j].read.data));
      assert passes[j + 1] == passes[1..][j];
    }
  }

  /** `gatherdata` from its entry, with `attempt` and `notify` the outcomes
      of the `connect()` and `start_notify` calls in the order they are
      made: when the client reports no link, reconnect (whose timeout
      escapes) and restart notifications; then read. A stored reading is
      never the sentinel, and is the parse of a frame some pass read. */
  function Gather(linked: bool, notifying: bool, attempt: nat -> ConnectOutcome, notify: nat -> NotifyOutcome,
                  passes: seq<Pass>): (g: Gathered)
    requires notifying ==> linked
    ensures g.notifying ==> g.linked
    ensures g.exit == TimedOut <==> !linked && ConnectResult(attempt, 0) == TimedOut
    ensures g.stored.Some? ==> g.stored.value.decoded.Some?
    ensures g.stored.Some? ==> ReadFrom(passes, g.stored.value)
    decreases |passes|, 1
  {
    if linked then Reads(notifying, attempt, notify, passes)
    else match ConnectResult(attempt, 0)
      case TimedOut => Gathered(TimedOut, false, notifying, None)
      case Returned(up) =>
        if !up then Gathered(Returned(()), false, notifying, None)
        else Reads(!NotifyExhausted(notify), Shift(attempt, ConnectTries(attempt, 0)),
                   Shift(notify, NotifyTries(notify, 0)), passes)
  }

  /** The reads of `gatherdata` once the client reports a link. A pass leaves
      the link as `linkAfter` says, and notifications end with the link. A
      read error, the end of the 20-second window (the passes run out) or a
      non-empty frame ends the call; an empty read calls `gatherdata` again
      inside the `try`, so the timeout of that call's reconnect is caught. */
  function Reads(notifying: bool, attempt: nat -> ConnectOutcome, notify: nat -> NotifyOutcome,
                 passes: seq<Pass>): (g: Gathered)
    ensures g.exit == Returned(())
    ensures g.notifying ==> g.linked
    ensures g.stored.Some? ==> g.stored.value.decoded.Some?
    ensures g.stored.Some? ==> ReadFrom(passes, g.stored.value)
    decreases |passes|, 0
  {
    if passes == [] then Gathered(Returned(()), true, notifying, None)
    else
      var p := passes[0];
      var still := notifying && p.linkAfter;
      match p.read
      case ReadError => Gathered(Returned(()), p.linkAfter, still, None)
      case ReadData(data) =>
        if data != [] then Gathered(Returned(()), p.linkAfter, still, Kept(data))
        else
          var inner := Gather(p.linkAfter, still, attempt, notify, passes[1..]);
          ReadFromLater(passes, inner.stored);
          Gathered(Returned(()), inner.linked, inner.notifying, inner.stored)
  }

  /** While the link holds through every pass, `gatherdata` stores exactly
      what `Polled` describes, and notifications stay as they were. */
  lemma {:induction false} ReadsOnSteadyLink(notifying: bool, attempt: nat -> ConnectOutcome,
                                             notify: nat -> NotifyOutcome, passes: seq<Pass>)
    requires forall i :: 0 <= i < |passes| ==> passes[i].linkAfter
    ensures Reads(notifying, attempt, notify, passes) == Gathered(Returned(()), true, notifying, Polled(ReadsOf(passes)))
  {
    if passes != [] {
      var got := ReadsOf(passes);
      assert got[0] == passes[0].read;
      if passes[0].read == ReadData([]) {
        ReadsOnSteadyLink(notifying, attempt, notify, passes[1..]);
        assert ReadsOf(passes[1..]) == got[1..];
      }
    }
  }

  /** An empty read after which the link drops sends `gatherdata` through
      its reconnect again; if that reconnect times out the timeout is caught,
      and the call ends without a link and without a reading. */
  lemma InnerTimeoutCaught(notifying: bool, attempt: nat -> ConnectOutcome, notify: nat -> NotifyOutcome,
                           passes: seq<Pass>)
    requires |passes| >= 1 && passes[0] == Pass(ReadData([]), false)
    requires ConnectResult(attempt, 0) == TimedOut
    ensures Reads(notifying, attempt, notify, passes) == Gathered(Returned(()), false, false, None)
  {
  }

  /** A Bluetooth advertisement seen by a scan. */
  datatype Advert = Advert(name: Option<string>, address: string)

  /** The scan filter: a name is present and starts with `LFTB`. A device
      that advertises no name, or an empty one, never passes. */
  predicate IsLaifen(a: Advert): (b: bool)
    ensures b ==> a.name.Some? && |a.name.value| >= 4
  {
    a.name.Some? && StartsWith(a.name.value, "LFTB")
  }

  /** The devices the filter keeps, in scan order. */
  function LaifenAdverts(devices: seq<Advert>): (found: seq<Advert>)
    ensures |found| <= |devices|
    ensures forall a :: a in found <==> a in devices && IsLaifen(a)
  {
    if devices == [] then []
    else if IsLaifen(devices[0]) then [devices[0]] + LaifenAdverts(devices[1..])
    else LaifenAdverts(devices[1..])
  }

  /** How many of the devices pass the filter. */
  function CountLaifen(devices: seq<Advert>): nat
  {
    if devices == [] then 0
    else (if IsLaifen(devices[0]) then 1 else 0) + CountLaifen(devices[1..])
  }

  /** The filter keeps one entry per passing device. */
  lemma {:induction false} LaifenAdvertsCount(devices: seq<Advert>)
    ensures |LaifenAdverts(devices)| == CountLaifen(devices)
  {
    if devices != [] {
      LaifenAdvertsCount(devices[1..]);
    }
  }

  /** The passing device at scan index `i` sits at the position given by the
      number of passing devices before it. */
  lemma {:induction false} LaifenAdvertAt(devices: seq<Advert>, i: nat)
    requires i < |devices| && IsLaifen(devices[i])
    ensures CountLaifen(devices[..i]) < |LaifenAdverts(devices)|
    ensures LaifenAdverts(devices)[CountLaifen(devices[..i])] == devices[i]
  {
    if i > 0 {
      var rest := devices[1..];
      LaifenAdvertAt(rest, i - 1);
      assert devices[..i][1..] == rest[..i - 1];
    }
  }

  /** So the filter keeps scan order and repeats: its result is fixed by
      the count and the position of every passing device. */
  lemma LaifenAdvertsInOrder(devices: seq<Advert>)
    ensures |LaifenAdverts(devices)| == CountLaifen(devices)
    ensures forall i :: 0 <= i < |devices| && IsLaifen(devices[i]) ==>
      CountLaifen(devices[..i]) < |LaifenAdverts(devices)| &&
      LaifenAdverts(devices)[CountLaifen(devices[..i])] == devices[i]
  {
    LaifenAdvertsCount(devices);
    forall i | 0 <= i < |devices| && IsLaifen(devices[i])
      ensures CountLaifen(devices[..i]) < |LaifenAdverts(devices)|
      ensures LaifenAdverts(devices)[CountLaifen(devices[..i])] == devices[i]
    {
      LaifenAdvertAt(devices, i);
    }
  }

  /** `scan_for_devices` on the devices a scan discovered: None when no
      device passes the filter, otherwise those that do. */
  function ScanForDevices(devices: seq<Advert>): (r: Option<seq<Advert>>)
    ensures r.None? <==> forall a :: a in devices ==> !IsLaifen(a)
    ensures r.Some? ==> r.value != [] && forall a :: a in r.value <==> a in devices && IsLaifen(a)
    ensures r.Some? ==> r.value == LaifenAdverts(devices)
  {
    var found := LaifenAdverts(devices);
    if found == [] then None
    else
      assert found[0] in found;
      Some(found)
  }

  /** The index of the first found device with the given address, or the
      length when there is none. */
  function FirstWithAddress(found: seq<Advert>, address: string): (k: nat)
    ensures k <= |found|
    ensures k < |found| ==> found[k].address == address
    ensures forall j :: 0 <= j < k ==> found[j].address != address
  {
    if found == [] || found[0].address == address then 0
    else 1 + FirstWithAddress(found[1..], address)
  }

  /** The first found device with the given address, as the availability
      monitor selects it. */
  function MatchingDevice(found: seq<Advert>, address: string): (r: Option<Advert>)
    ensures r.None? <==> forall a :: a in found ==> a.address != address
    ensures r.Some? ==> r.value.address == address
    ensures r.Some? ==> r.value == found[FirstWithAddress(found, address)]
  {
    var k := FirstWithAddress(found, address);
    if k < |found| then Some(found[k]) else None
  }

  /** Selecting from a list with one device in front: that device if it has
      the address, otherwise the selection from the rest. */
  lemma MatchingDeviceCons(d: Advert, rest: seq<Advert>, address: string)
    ensures MatchingDevice([d] + rest, address) == if d.address == address then Some(d) else MatchingDevice(rest, address)
  {
    var found := [d] + rest;
    assert found[0] == d && found[1..] == rest;
  }

  /** The device the monitor selects from a scan's results is the first
      device in scan order that both passes the filter and has the address. */
  lemma {:induction false} MatchingDeviceOfScan(devices: seq<Advert>, address: string, i: nat)
    requires i < |devices| && IsLaifen(devices[i]) && devices[i].address == address
    requires forall j :: 0 <= j < i ==> !IsLaifen(devices[j]) || devices[j].address != address
    ensures MatchingDevice(LaifenAdverts(devices), address) == Some(devices[i])
  {
    var rest := devices[1..];
    if i > 0 {
      MatchingDeviceOfScan(rest, address, i - 1);
    }
    if IsLaifen(devices[0]) {
      assert LaifenAdverts(devices) == [devices[0]] + LaifenAdverts(rest);
      MatchingDeviceCons(devices[0], LaifenAdverts(rest), address);
    }
  }

  /** The device object. `connected` is the client's `is_connected`,
      `generation` counts the clients made by `set_ble_device`, `notifying`
      says notifications were started on the current connection,
      `published` lists the readings handed to the coordinator and `written`
      the frames written to the command characteristic. */
  class Laifen {
    var address: string
    var generation: nat
    var connected: bool
    var hasConnectedBefore: bool
    var notifying: bool
    var result: Option<Reading>
    var published: seq<Reading>
    var written: seq<seq<Byte>>

    /** Notifications run only on a live connection. */
    predicate Valid()
      reads this
    {
      notifying ==> connected
    }

    constructor (address: string)
      ensures Valid()
      ensures this.address == address && generation == 0
      ensures !connected && !hasConnectedBefore && !notifying
      ensures result == None && published == [] && written == []
    {
      this.address := address;
      generation := 0;
      connected := false;
      hasConnectedBefore := false;
      notifying := false;
      result := None;
      published := [];
      written := [];
    }

    /** `connect`: true at once if already connected (and the connection is
        remembered); otherwise up to ten attempts. `tries` is the number of
        `client.connect()` calls made. */
    method Connect(attempt: nat -> ConnectOutcome) returns (r: Exit<bool>, tries: nat)
      requires Valid()
      modifies this`connected, this`hasConnectedBefore
      ensures Valid()
      ensures old(connected) ==> r == Returned(true) && tries == 0 && connected && hasConnectedBefore
      ensures !old(connected) ==> r == ConnectResult(attempt, 0) && tries == ConnectTries(attempt, 0)
      ensures !old(connected) ==> connected == (r == Returned(true)) && hasConnectedBefore == old(hasConnectedBefore)
    {
      if connected {
        hasConnectedBefore := true;
        return Returned(true), 0;
      }
      tries := 0;
      for k := 0 to RETRY_LIMIT
        invariant !connected && hasConnectedBefore == old(hasConnectedBefore)
        invariant tries == k
        invariant ConnectResult(attempt, 0) == ConnectResult(attempt, k)
        invariant ConnectTries(attempt, 0) == k + ConnectTries(attempt, k)
      {
        tries := tries + 1;
        match attempt(k)
        case Linked =>
          connected := true;
          return Returned(true), tries;
        case ConnectTimeout =>
          return TimedOut, tries;
        case NotLinked =>
        case ConnectError =>
      }
      r := Returned(false);
    }

    /** `start_notifications`: nothing when not connected; otherwise up to
        five attempts, ending early on success or on the "already enabled"
        error. `gaveUp` is the `False` it returns after five failures (every
        other exit returns None). */
    method StartNotifications(notify: nat -> NotifyOutcome) returns (gaveUp: bool, tries: nat)
      requires Valid()
      modifies this`notifying
      ensures Valid()
      ensures !connected ==> !gaveUp && tries == 0 && notifying == old(notifying)
      ensures connected ==> gaveUp == NotifyExhausted(notify) && tries == NotifyTries(notify, 0)
      ensures connected ==> notifying == (old(notifying) || !gaveUp)
    {
      if !connected {
        return false, 0;
      }
      tries := 0;
      for k := 0 to NOTIFY_ATTEMPTS
        invariant notifying == old(notifying)
        invariant tries == k
        invariant forall j :: 0 <= j < k ==> NotifyFails(notify(j))
        invariant NotifyTries(notify, 0) == k + NotifyTries(notify, k)
      {
        tries := tries + 1;
        match notify(k)
        case NotifyStarted =>
          notifying := true;
          return false, tries;
        case NotifyError(message) =>
          if Contains(message, ALREADY_ENABLED) {
            notifying := true;
            return false, tries;
          }
      }
      gaveUp := true;
    }

    /** `stop_notifications`: nothing when not connected; a failed
        `stop_notify` is only logged. */
    method StopNotifications(stopped: bool)
      requires Valid()
      modifies this`notifying
      ensures Valid()
      ensures notifying == (old(notifying) && !(connected && stopped))
    {
      if !connected {
        return;
      }
      if stopped {
        notifying := false;
      }
    }

    /** `send_command`: reconnects first if needed; true exactly when the
        write went through. The frame is recorded only then. */
    method SendCommand(command: seq<Byte>, attempt: nat -> ConnectOutcome, writeOk: bool) returns (r: Exit<bool>)
      requires Valid()
      modifies this`connected, this`hasConnectedBefore, this`written
      ensures Valid()
      ensures hasConnectedBefore == old(hasConnectedBefore)
      ensures r == if old(connected) || ConnectResult(attempt, 0) == Returned(true) then Returned(writeOk)
                   else ConnectResult(attempt, 0)
      ensures connected == (old(connected) || ConnectResult(attempt, 0) == Returned(true))
      ensures written == if r == Returned(true) then old(written) + [command] else old(written)
    {
      if !connected {
        var linked, _ := Connect(attempt);
        if linked != Returned(true) {
          return linked;
        }
      }
      if writeOk {
        written := written + [command];
        r := Returned(true);
      } else {
        r := Returned(false);
      }
    }

    /** `turn_on`: sends the bytes of the literal `AA0F010101A4`. */
    method TurnOn(attempt: nat -> ConnectOutcome, writeOk: bool) returns (r: Exit<bool>)
      requires Valid()
      modifies this`connected, this`hasConnectedBefore, this`written
      ensures Valid()
      ensures r == if old(connected) || ConnectResult(attempt, 0) == Returned(true) then Returned(writeOk)
                   else ConnectResult(attempt, 0)
      ensures hasConnectedBefore == old(hasConnectedBefore)
      ensures connected == (old(connected) || ConnectResult(attempt, 0) == Returned(true))
      ensures written == if r == Returned(true) then old(written) + [CommandBytes(Command.TurnOn)] else old(written)
    {
      CommandLiteral(Command.TurnOn);
      var frame := FromHex(CommandHex(Command.TurnOn)).value;
      r := SendCommand(frame, attempt, writeOk);
    }

    /** `turn_off`: sends the bytes of the literal `AA0F010100A5`. */
    method TurnOff(attempt: nat -> ConnectOutcome, writeOk: bool) returns (r: Exit<bool>)
      requires Valid()
      modifies this`connected, this`hasConnectedBefore, this`written
      ensures Valid()
      ensures r == if old(connected) || ConnectResult(attempt, 0) == Returned(true) then Returned(writeOk)
                   else ConnectResult(attempt, 0)
      ensures hasConnectedBefore == old(hasConnectedBefore)
      ensures connected == (old(connected) || ConnectResult(attempt, 0) == Returned(true))
      ensures written == if r == Returned(true) then old(written) + [CommandBytes(Command.TurnOff)] else old(written)
    {
      CommandLiteral(Command.TurnOff);
      var frame := FromHex(CommandHex(Command.TurnOff)).value;
      r := SendCommand(frame, attempt, writeOk);
    }

    /** `gatherdata`: reconnects (and restarts notifications) if the client
        reports no link, then reads. `attempt` and `notify` are the outcomes
        of the `connect()` and `start_notify` calls in the order they are
        made. */
    method GatherData(attempt: nat -> ConnectOutcome, notify: nat -> NotifyOutcome, passes: seq<Pass>)
      returns (r: Exit<()>)
      requires Valid()
      modifies this`connected, this`hasConnectedBefore, this`notifying, this`result, this`published
      ensures Valid()
      ensures hasConnectedBefore == old(hasConnectedBefore)
      ensures var g := Gather(old(connected), old(notifying), attempt, notify, passes);
        r == g.exit && connected == g.linked && notifying == g.notifying &&
        result == (if g.stored.Some? then g.stored else old(result)) &&
        published == old(published) + (if g.stored.Some? then [g.stored.value] else [])
      decreases |passes|, 1
    {
      if connected {
        ReadPasses(attempt, notify, passes);
        return Returned(());
      }
      var linked, tries := Connect(attempt);
      if linked == TimedOut {
        return TimedOut;
      }
      if !linked.value {
        return Returned(());
      }
      var _, notifyTries := StartNotifications(notify);
      ReadPasses(Shift(attempt, tries), Shift(notify, notifyTries), passes);
      r := Returned(());
    }

    /** The reads of `gatherdata` once the client reports a link: each pass
        leaves the link as it says; a non-empty frame whose status is not
        None is stored and published, so polling never stores the sentinel;
        an empty read calls `gatherdata` again, whose exception is caught. */
    method ReadPasses(attempt: nat -> ConnectOutcome, notify: nat -> NotifyOutcome, passes: seq<Pass>)
      requires Valid() && connected
      modifies this`connected, this`hasConnectedBefore, this`notifying, this`result, this`published
      ensures Valid()
      ensures hasConnectedBefore == old(hasConnectedBefore)
      ensures var g := Reads(old(notifying), attempt, notify, passes);
        connected == g.linked && notifying == g.notifying &&
        result == (if g.stored.Some? then g.stored else old(result)) &&
        published == old(published) + (if g.stored.Some? then [g.stored.value] else [])
      decreases |passes|, 0
    {
      if passes == [] {
        return;
      }
      var pass := passes[0];
      connected := pass.linkAfter;
      notifying := notifying && pass.linkAfter;
      match pass.read
      case ReadError =>
      case ReadData(data) =>
        if data != [] {
          var kept := Kept(data);
          if kept.Some? {
            result := kept;
            published := published + [kept.value];
          }
        } else {
          var _ := GatherData(attempt, notify, passes[1..]);
        }
    }

    /** `notification_handler`: a frame whose hex starts with `aa0a0215` and
        is at least 50 characters long is parsed and stored, even when it
        parses to the sentinel; any other frame changes nothing. */
    method NotificationHandler(data: seq<Byte>)
      modifies this`result, this`published
      ensures result == if Accepts(data) then Some(ParseData(Some(data))) else old(result)
      ensures published == if Accepts(data) then old(published) + [ParseData(Some(data))] else old(published)
    {
      var dataStr := ToHex(data);
      if !StartsWith(dataStr, "aa0a0215") || |dataStr| < 50 {
        return;
      }
      var parsed := ParseData(Some(data));
      result := Some(parsed);
      published := published + [parsed];
    }

    /** `set_ble_device`: a new client for the new device (not connected),
        then connect, and start notifications if that succeeded. */
    method SetBleDevice(newAddress: string, attempt: nat -> ConnectOutcome, notify: nat -> NotifyOutcome)
      returns (r: Exit<()>)
      requires Valid()
      modifies this`address, this`generation, this`connected, this`hasConnectedBefore, this`notifying
      ensures Valid()
      ensures address == newAddress && generation == old(generation) + 1
      ensures hasConnectedBefore == old(hasConnectedBefore)
      ensures r == if ConnectResult(attempt, 0) == TimedOut then TimedOut else Returned(())
      ensures connected == (ConnectResult(attempt, 0) == Returned(true))
      ensures notifying == (connected && !NotifyExhausted(notify))
    {
      address := newAddress;
      generation := generation + 1;
      connected := false;
      notifying := false;
      var linked, _ := Connect(attempt);
      if linked == TimedOut {
        return TimedOut;
      }
      if linked.value {
        var _, _ := StartNotifications(notify);
      }
      r := Returned(());
    }

    /** `disconnect`: closes a live connection; otherwise nothing.
        `disconnectOk` says whether `client.disconnect()` succeeds; when it
        raises, the BleakError is not caught and escapes (`raised`), and the
        device is left as it was. */
    method Disconnect(disconnectOk: bool) returns (raised: bool)
      requires Valid()
      modifies this`connected, this`notifying
      ensures Valid()
      ensures raised <==> old(connected) && !disconnectOk
      ensures raised ==> connected == old(connected) && notifying == old(notifying)
      ensures !raised ==> !connected && !notifying
    {
      raised := false;
      if connected {
        if !disconnectOk {
          return true;
        }
        connected := false;
        notifying := false;
      }
    }
  }
}
