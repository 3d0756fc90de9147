/** The share panel of `src/components/TOTPCard/panels/SharePanel.tsx`: the
    `step` state machine, the secure-link configuration, and the request
    `handleCreateSecureLink` builds. The clock, the keyed hash and the
    server's reply are parameters. */
module SharePanel {
  import opened Wrappers
  import opened TotpTypes
  import opened Hmac
  import opened Json
  import Radix
  import CodeBatch
  import ShareRoute

  /** The screen the panel shows. */
  datatype Step = Menu | Warning | Config | Result

  /** The options of a secure link: burn after reading, and its lifetime class. */
  datatype SecureConfig = SecureConfig(oneTime: bool, expiresIn: string)

  const InitialConfig: SecureConfig := SecureConfig(true, "1h")

  /** The lifetime classes the panel offers. */
  const LifetimeChoices: seq<string> := ["1h", "12h", "24h"]

  /** `hoursMap[expiresIn] || 1` */
  function HoursFor(expiresIn: string): (hours: nat)
    ensures hours == 1 || hours == 12 || hours == 24
  {
    if expiresIn == "1h" then 1
    else if expiresIn == "12h" then 12
    else if expiresIn == "24h" then 24
    else 1
  }

  /** `Math.floor(now / period) * period`: the start of the time step `now`
      falls in. */
  function AlignToPeriod(now: int, period: int): (start: int)
    requires period > 0
    ensures start <= now < start + period
  {
    (now / period) * period
  }

  /** The batch the panel asks for: `calculateCodes` over the lifetime's
      hours, from the start of the current time step. `nowMs` is `Date.now()`. */
  function RequestedCodes(secret: string, params: TOTPParams, config: SecureConfig, nowMs: int, hmac: HmacFn)
    : (codes: seq<string>)
    ensures |codes| <= CodeBatch.BatchCount(HoursFor(config.expiresIn), params.period)
  {
    CodeBatch.Batch(hmac, secret, params.period, params.digits, params.algorithm,
                    HoursFor(config.expiresIn), AlignToPeriod(nowMs / 1000, params.period))
  }

  /** The codes as a JSON array of strings. */
  function StrItems(codes: seq<string>): (items: seq<JsValue>)
    ensures |items| == |codes| && forall i :: 0 <= i < |codes| ==> items[i] == Str(codes[i])
  {
    seq(|codes|, (i: int) requires 0 <= i < |codes| => Str(codes[i]))
  }

  /** The JSON body of the `POST /api/share` request. */
  function RequestBody(codes: seq<string>, period: int, startTime: int, config: SecureConfig): JsValue
  {
    Obj(map[
      "codes" := Arr(StrItems(codes)),
      "period" := Num(period),
      "startTime" := Num(startTime),
      "expiresIn" := Str(config.expiresIn),
      "burnAfterReading" := Bool(config.oneTime)])
  }

  /** The link shown once the server has answered: `${origin}/view/${id}`. */
  function LinkFor(origin: string, id: string): (link: string)
    ensures |link| == |origin| + 6 + |id|
    ensures link[..|origin|] == origin && link[|origin| + 6..] == id
  {
    origin + "/view/" + id
  }

  /** The identifier the client reads from a reply (`data.id`); a body
      without one reads as `undefined`. */
  function ReplyId(reply: ShareRoute.Response): string
  {
    match reply.body
    case IdBody(id) => id
    case ErrorBody(_) => "undefined"
  }

  /** `res.ok`: a status in the 2xx range. */
  predicate ReplyOk(reply: ShareRoute.Response)
  {
    200 <= reply.status <= 299
  }

  /** The moves the panel's buttons make between screens. Moving to `Result`
      is not a button: only a successful request does it. */
  predicate Navigates(from: Step, to: Step)
  {
    || (from == Menu && to == Warning)
    || (from == Warning && to == Config)
    || (from == Warning && to == Menu)
    || (from == Config && to == Warning)
    || (from == Result && to == Config)
  }

  /** The panel's state. */
  class SharePanelState {
    var step: Step
    var config: SecureConfig
    var generatedLink: string
    var isCreating: bool

    /** The result screen always has a link to show. */
    predicate Valid()
      reads this
    {
      step == Result ==> generatedLink != ""
    }

    constructor()
      ensures step == Menu && config == InitialConfig && generatedLink == "" && !isCreating
      ensures Valid()
    {
      step := Menu;
      config := InitialConfig;
      generatedLink := "";
      isCreating := false;
    }

    /** The "Secure Link" entry of the menu. */
    method OpenWarning()
      requires Valid() && step == Menu
      modifies this
      ensures Valid() && step == Warning && Navigates(old(step), step)
      ensures config == old(config) && generatedLink == old(generatedLink) && isCreating == old(isCreating)
    {
      step := Warning;
    }

    /** Accepting the warning. */
    method AcceptWarning()
      requires Valid() && step == Warning
      modifies this
      ensures Valid() && step == Config && Navigates(old(step), step)
      ensures config == old(config) && generatedLink == old(generatedLink) && isCreating == old(isCreating)
    {
      step := Config;
    }

    /** Declining the warning. */
    method DeclineWarning()
      requires Valid() && step == Warning
      modifies this
      ensures Valid() && step == Menu && Navigates(old(step), step)
      ensures config == old(config) && generatedLink == old(generatedLink) && isCreating == old(isCreating)
    {
      step := Menu;
    }

    /** The back arrow of the configuration screen. */
    method BackToWarning()
      requires Valid() && step == Config
      modifies this
      ensures Valid() && step == Warning && Navigates(old(step), step)
      ensures config == old(config) && generatedLink == old(generatedLink) && isCreating == old(isCreating)
    {
      step := Warning;
    }

    /** "Create another" on the result screen; the last link is kept. */
    method CreateAnother()
      requires Valid() && step == Result
      modifies this
      ensures Valid() && step == Config && Navigates(old(step), step)
      ensures config == old(config) && generatedLink == old(generatedLink) && isCreating == old(isCreating)
    {
      step := Config;
    }

    /** One of the lifetime buttons. */
    method ChooseLifetime(time: string)
      requires Valid() && step == Config && time in LifetimeChoices
      modifies this
      ensures Valid() && config == SecureConfig(old(config.oneTime), time)
      ensures step == old(step) && generatedLink == old(generatedLink) && isCreating == old(isCreating)
    {
      config := config.(expiresIn := time);
    }

    /** The burn-after-reading switch. */
    method ToggleOneTime()
      requires Valid() && step == Config
      modifies this
      ensures Valid() && config == SecureConfig(!old(config.oneTime), old(config.expiresIn))
      ensures step == old(step) && generatedLink == old(generatedLink) && isCreating == old(isCreating)
    {
      config := config.(oneTime := !config.oneTime);
    }

    /** The first half of `handleCreateSecureLink`, up to sending the request:
        marks the panel busy and builds the request body. The button is
        disabled while a request runs. */
    method BeginCreateSecureLink(secret: string, params: TOTPParams, nowMs: int, hmac: HmacFn)
      returns (body: JsValue)
      requires Valid() && step == Config && !isCreating
      modifies this
      ensures Valid() && isCreating
      ensures step == old(step) && config == old(config) && generatedLink == old(generatedLink)
      ensures body == RequestBody(RequestedCodes(secret, params, config, nowMs, hmac), params.period,
                                  AlignToPeriod(nowMs / 1000, params.period), config)
    {
      isCreating := true;
      var hours := HoursFor(config.expiresIn);
      var now := nowMs / 1000;
      var firstCodeTimestamp := AlignToPeriod(now, params.period);
      var codes := CodeBatch.CalculateCodes(secret, params.period, params.digits, params.algorithm,
                                            hours, firstCodeTimestamp, hmac);
      body := RequestBody(codes, params.period, firstCodeTimestamp, config);
    }

    /** The second half: `reply` is the server's response, or `None` when
        `fetch` or reading the body throws. Only an ok reply shows the result
        screen with the new link; any failure leaves screen and link as they
        were. Either way the panel is no longer busy. */
    method FinishCreateSecureLink(reply: Option<ShareRoute.Response>, origin: string)
      requires Valid()
      modifies this
      ensures Valid() && !isCreating && config == old(config)
      ensures reply.Some? && ReplyOk(reply.value)
              ==> step == Result && generatedLink == LinkFor(origin, ReplyId(reply.value))
      ensures !(reply.Some? && ReplyOk(reply.value))
              ==> step == old(step) && generatedLink == old(generatedLink)
    {
      if reply.Some? && ReplyOk(reply.value) {
        var link := LinkFor(origin, ReplyId(reply.value));
        generatedLink := link;
        step := Result;
      }
      isCreating := false;
    }
  }

  // ---------------------------------------------------------------------------
  // Properties

  /** The lifetime classes map to 1, 12 and 24 hours; anything else,
      `'3d'` included, to one hour. */
  lemma HoursChoices(expiresIn: string)
    ensures HoursFor("1h") == 1 && HoursFor("12h") == 12 && HoursFor("24h") == 24
    ensures HoursFor("3d") == 1
    ensures expiresIn !in LifetimeChoices ==> HoursFor(expiresIn) == 1
    ensures HoursFor(expiresIn) >= 1
  {
  }

  /** The aligned start is a multiple of the period, at most `now`, and less
      than one period before it. */
  lemma AlignToPeriodBounds(now: int, period: int)
    requires period > 0
    ensures var start := AlignToPeriod(now, period);
      start % period == 0 && start <= now < start + period
  {
    var q := now / period;
    assert now == period * q + now % period;
    assert q * period == period * q;
    Radix.DivModUnique(q * period, period, q, 0);
  }

  /** Every allowed period divides an hour, so the batch is exactly
      `hours * 3600 / period` codes long, 120 for one hour at 30 seconds. */
  lemma BatchSize(hours: nat, period: Period)
    ensures CodeBatch.BatchCount(hours, period) * period == hours * 3600
    ensures CodeBatch.BatchCount(hours, period) == hours * 3600 / period
    ensures CodeBatch.BatchCount(1, 30) == 120
  {
    PeriodDividesHour(period);
    var k := 3600 / period;
    assert 3600 == period * k;
    var total := hours * 3600;
    assert total == period * (hours * k);
    Radix.DivModUnique(total + period - 1, period, hours * k, period - 1);
    Radix.DivModUnique(total, period, hours * k, 0);
  }

  /** The server accepts a request the panel builds from a non-empty batch:
      the record holds the codes in order, the period, the aligned start as
      both timestamps and the burn flag as chosen, and for every offered
      lifetime the server's expiry lies that many hours after its clock. */
  lemma RequestStored(codes: seq<string>, period: int, startTime: int, config: SecureConfig,
                      serverNow: int, id: string)
    requires ShareRoute.IsShareId(id) && |codes| > 0 && period > 0
    requires config.expiresIn in LifetimeChoices
    ensures var out := ShareRoute.Post(Some(RequestBody(codes, period, startTime, config)), serverNow, id, true);
      && out.response == ShareRoute.Response(200, ShareRoute.IdBody(id))
      && out.stored.Some?
      && out.stored.value.codes == StrItems(codes)
      && out.stored.value.period == Num(period)
      && out.stored.value.startTime == startTime
      && out.stored.value.firstCodeTimestamp == startTime
      && out.stored.value.burnAfterReading == Bool(config.oneTime)
      && out.stored.value.expiresAt == serverNow + HoursFor(config.expiresIn) * ShareRoute.HourMs
  {
    var body := RequestBody(codes, period, startTime, config);
    assert Get(body, "codes") == Arr(StrItems(codes));
    assert Get(body, "period") == Num(period);
    assert Get(body, "startTime") == Num(startTime);
    assert Get(body, "expiresIn") == Str(config.expiresIn);
    assert Get(body, "burnAfterReading") == Bool(config.oneTime);
  }

  /** End to end, with a hash that never fails: the server stores exactly
      the batch for the chosen lifetime, starting on a step boundary no later
      than the client's clock, and the codes cover the link's whole lifetime
      and no more: codes times period is the time to expiry. */
  lemma SecureLinkIssued(secret: string, params: TOTPParams, config: SecureConfig, nowMs: int,
                         hmac: HmacFn, serverNow: int, id: string)
    requires ShareRoute.IsShareId(id) && config.expiresIn in LifetimeChoices
    requires NeverFails(hmac, params.algorithm, CodeBatch.SecretKey(secret))
    ensures var start := AlignToPeriod(nowMs / 1000, params.period);
      var codes := RequestedCodes(secret, params, config, nowMs, hmac);
      var out := ShareRoute.Post(Some(RequestBody(codes, params.period, start, config)), serverNow, id, true);
      && out.response.status == 200 && out.stored.Some?
      && |codes| == HoursFor(config.expiresIn) * 3600 / params.period
      && |out.stored.value.codes| == |codes|
      && out.stored.value.startTime == start && start % params.period == 0 && start <= nowMs / 1000
      && |codes| * params.period * 1000 == out.stored.value.expiresAt - serverNow
  {
    var hours := HoursFor(config.expiresIn);
    var start := AlignToPeriod(nowMs / 1000, params.period);
    var codes := RequestedCodes(secret, params, config, nowMs, hmac);
    BatchSize(hours, params.period);
    CodeBatch.BatchComplete(hmac, secret, params.period, params.digits, params.algorithm, hours, start, 0);
    RequestStored(codes, params.period, start, config, serverNow, id);
    AlignToPeriodBounds(nowMs / 1000, params.period);
  }
}
