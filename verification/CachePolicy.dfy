/** Freshness of an artifact over time, and the sweeper's stricter question
    (`policy.py`).  Parsing an ISO date is library code: `parse` maps the first
    ten characters of a value to a day number, or to nothing. */
module CachePolicy {
  import opened Options

  type Fingerprint = string

  /** One entry of the `variables` list that `dct describe` reports. */
  datatype Declaration = Declaration(name: string, kind: string, default: Option<string>)

  /** Date variables by name, with their defaults. */
  type Schema = map<string, Option<string>>

  datatype Config = Config(defaultTtl: int, frozenDateVars: bool, minInterval: int)

  datatype Freshness = Missing | Frozen | Fresh | Stale

  predicate IsDate(kind: string) {
    kind == "date" || kind == "datepicker"
  }

  /** A later declaration of a name replaces an earlier one. */
  function DateVarsOf(info: seq<Declaration>): Schema {
    if info == [] then map[]
    else
      var last := info[|info| - 1];
      var front := DateVarsOf(info[..|info| - 1]);
      if IsDate(last.kind) then front[last.name := last.default] else front
  }

  /** Declaration `i` is a date of that name and default, and the last of its name. */
  predicate LastDate(info: seq<Declaration>, i: nat, name: string, default: Option<string>) {
    && i < |info| && info[i].name == name && info[i].default == default
    && (info[i].kind == "date" || info[i].kind == "datepicker")
    && forall j :: i < j < |info| && info[j].name == name ==> info[j].kind != "date" && info[j].kind != "datepicker"
  }

  /** What the schema holds: the names declared as dates, each with the default of
      its last date declaration. */
  lemma {:induction false} DateVarsAreLastDates(info: seq<Declaration>, name: string, default: Option<string>)
    ensures name in DateVarsOf(info) && DateVarsOf(info)[name] == default
      <==> exists i: nat :: LastDate(info, i, name, default)
  {
    if info != [] {
      var front, n := info[..|info| - 1], |info| - 1;
      DateVarsAreLastDates(front, name, default);
      if IsDate(info[n].kind) && info[n].name == name {
        assert info[n].default == default ==> LastDate(info, n, name, default);
      } else {
        forall i: nat
          ensures LastDate(front, i, name, default) <==> LastDate(info, i, name, default)
        {
          assert forall j :: 0 <= j < n ==> front[j] == info[j];
        }
      }
    }
  }

  function Prefix(s: string, n: nat): string {
    if |s| <= n then s else s[..n]
  }

  /** The value of a date variable: the request's, else the declared default. */
  function ValueOf(schema: Schema, name: string, variables: map<string, string>): Option<string>
    requires name in schema
  {
    if name in variables then Some(variables[name]) else schema[name]
  }

  /** The variable is set, is a date, and lies before today. */
  predicate Past(parse: string -> Option<int>, raw: Option<string>, today: int) {
    raw.Some? && parse(Prefix(raw.value, 10)).Some? && parse(Prefix(raw.value, 10)).value < today
  }

  ghost predicate AllPast(parse: string -> Option<int>, schema: Schema, variables: map<string, string>, today: int) {
    forall name :: name in schema ==> Past(parse, ValueOf(schema, name, variables), today)
  }

  /** Every date variable has a value, the request's or else the default, whose first
      ten characters are a date before `today`. */
  ghost predicate DatesBefore(parse: string -> Option<int>, schema: Schema, variables: map<string, string>,
                              today: int)
  {
    forall name :: name in schema ==>
      exists value: string, date: int ::
        && (if name in variables then variables[name] == value else schema[name] == Some(value))
        && parse(if |value| <= 10 then value else value[..10]) == Some(date)
        && date < today
  }

  lemma AllPastMeans(parse: string -> Option<int>, schema: Schema, variables: map<string, string>, today: int)
    ensures AllPast(parse, schema, variables, today) <==> DatesBefore(parse, schema, variables, today)
  {
    forall name | name in schema
      ensures Past(parse, ValueOf(schema, name, variables), today) <==>
        exists value: string, date: int ::
          && (if name in variables then variables[name] == value else schema[name] == Some(value))
          && parse(if |value| <= 10 then value else value[..10]) == Some(date)
          && date < today
    {
      var raw := ValueOf(schema, name, variables);
      if Past(parse, raw, today) {
        var value := raw.value;
        var date := parse(if |value| <= 10 then value else value[..10]).value;
        assert if name in variables then variables[name] == value else schema[name] == Some(value);
        assert parse(if |value| <= 10 then value else value[..10]) == Some(date);
      }
    }
  }

  /** `renderedAt` in seconds, `now` in microseconds, `today` a day number. */
  ghost function FreshnessOf(config: Config, parse: string -> Option<int>, schema: Schema,
                             variables: map<string, string>, renderedAt: Option<int>, now: int, today: int): Freshness {
    if renderedAt.None? then Missing
    else if config.frozenDateVars && schema != map[] && AllPast(parse, schema, variables, today) then Frozen
    else if now - renderedAt.value * 1_000_000 < config.defaultTtl * 1_000_000 then Fresh
    else Stale
  }

  /** True: provably frozen.  False: not frozen.  None: describe failed. */
  ghost function FrozenOf(config: Config, parse: string -> Option<int>, described: Option<seq<Declaration>>,
                          variables: map<string, string>, today: int): Option<bool> {
    if !config.frozenDateVars then Some(false)
    else if described.None? then None
    else
      var schema := DateVarsOf(described.value);
      Some(schema != map[] && AllPast(parse, schema, variables, today))
  }

  function Age(freshness: Freshness): nat
    requires !freshness.Missing?
  {
    match freshness
    case Fresh => 0
    case Stale => 1
    case Frozen => 2
  }

  /** Over time the verdicts on one record read FRESH, then STALE, then FROZEN,
      never back: a frozen artifact stays frozen. */
  lemma FreshnessOnlyAges(config: Config, parse: string -> Option<int>, schema: Schema,
                          variables: map<string, string>, renderedAt: int,
                          now: int, today: int, now': int, today': int)
    requires now <= now' && today <= today'
    ensures Age(FreshnessOf(config, parse, schema, variables, Some(renderedAt), now, today))
         <= Age(FreshnessOf(config, parse, schema, variables, Some(renderedAt), now', today'))
  {
  }

  /** When a verdict is asked for: the clock and the calendar day. */
  datatype Moment = Moment(now: int, today: int)

  ghost function VerdictAt(config: Config, parse: string -> Option<int>, schema: Schema,
                           variables: map<string, string>, renderedAt: int, m: Moment): Freshness {
    FreshnessOf(config, parse, schema, variables, Some(renderedAt), m.now, m.today)
  }

  /** The verdicts of any number of requests over time are a run of FRESH, then a
      run of STALE, then a run of FROZEN. */
  lemma {:induction false} VerdictsInOrder(config: Config, parse: string -> Option<int>, schema: Schema,
                                           variables: map<string, string>, renderedAt: int, times: seq<Moment>)
    returns (stale: nat, frozen: nat)
    requires forall i, j :: 0 <= i <= j < |times| ==>
      times[i].now <= times[j].now && times[i].today <= times[j].today
    ensures stale <= frozen <= |times|
    ensures forall i :: 0 <= i < stale ==> VerdictAt(config, parse, schema, variables, renderedAt, times[i]).Fresh?
    ensures forall i :: stale <= i < frozen ==> VerdictAt(config, parse, schema, variables, renderedAt, times[i]).Stale?
    ensures forall i :: frozen <= i < |times| ==>
      VerdictAt(config, parse, schema, variables, renderedAt, times[i]).Frozen?
  {
    if times == [] {
      return 0, 0;
    }
    var n := |times| - 1;
    stale, frozen := VerdictsInOrder(config, parse, schema, variables, renderedAt, times[..n]);
    if n > 0 {
      var m, m' := times[n - 1], times[n];
      FreshnessOnlyAges(config, parse, schema, variables, renderedAt, m.now, m.today, m'.now, m'.today);
    }
    match VerdictAt(config, parse, schema, variables, renderedAt, times[n])
    case Fresh => stale, frozen := |times|, |times|;
    case Stale => frozen := |times|;
    case Frozen =>
  }

  /** The variable's date is one of the days `from` to `to`, the last excluded. */
  predicate DatedWithin(parse: string -> Option<int>, raw: Option<string>, from: int, to: int) {
    && raw.Some? && parse(Prefix(raw.value, 10)).Some?
    && from <= parse(Prefix(raw.value, 10)).value < to
  }

  /** FROZEN does not look at the render day: a board with one date variable set to
      the day of its render was not frozen when rendered, and is the next day. */
  lemma FrozenNeedNotBeHistorical(config: Config, parse: string -> Option<int>, name: string, raw: string,
                                  renderedAt: int, renderDay: int, now: int, now': int)
    requires config.frozenDateVars && parse(Prefix(raw, 10)) == Some(renderDay)
    ensures var schema, variables := map[name := None], map[name := raw];
      && !FreshnessOf(config, parse, schema, variables, Some(renderedAt), now, renderDay).Frozen?
      && FreshnessOf(config, parse, schema, variables, Some(renderedAt), now', renderDay + 1).Frozen?
  {
    var schema: Schema := map[name := None];
    assert name in schema && !Past(parse, ValueOf(schema, name, map[name := raw]), renderDay);
  }

  /** Exactly when a FROZEN artifact is historical: a record FROZEN on some day was so
      on the day of its render if and only if none of its dates lies between the two. */
  lemma FrozenSinceRender(config: Config, parse: string -> Option<int>, schema: Schema, variables: map<string, string>,
                          renderedAt: int, renderDay: int, now: int, today: int, now': int)
    requires renderDay <= today
    requires FreshnessOf(config, parse, schema, variables, Some(renderedAt), now', today).Frozen?
    ensures FreshnessOf(config, parse, schema, variables, Some(renderedAt), now, renderDay).Frozen?
      <==> forall name :: name in schema ==> !DatedWithin(parse, ValueOf(schema, name, variables), renderDay, today)
  {
  }

  /** What may be cached for a board whose describe succeeds with `info`: its date
      variables, or nothing when describe failed at the time. */
  predicate CachedFrom(schema: Schema, info: seq<Declaration>) {
    schema == map[] || schema == DateVarsOf(info)
  }

  /** With the board source unchanged, whatever serving calls FROZEN the sweeper
      calls frozen or undecidable, now or later: it is never pruned.  The converse
      holds unless a failed describe has been cached. */
  lemma ServedFrozenIsKept(config: Config, parse: string -> Option<int>, schema: Schema, info: seq<Declaration>,
                           described: Option<seq<Declaration>>, variables: map<string, string>,
                           renderedAt: int, now: int, today: int, today': int)
    requires CachedFrom(schema, info) && (described.None? || described == Some(info)) && today <= today'
    ensures FreshnessOf(config, parse, schema, variables, Some(renderedAt), now, today).Frozen?
      ==> FrozenOf(config, parse, described, variables, today') != Some(false)
    ensures schema == DateVarsOf(info) && described.Some? && today' == today
      && FrozenOf(config, parse, described, variables, today') == Some(true)
      ==> FreshnessOf(config, parse, schema, variables, Some(renderedAt), now, today).Frozen?
  {
  }

  class CachePolicy {
    const config: Config
    const parse: string -> Option<int>
    var schemas: map<Fingerprint, Schema>

    constructor (config: Config, parse: string -> Option<int>)
      ensures this.config == config && this.parse == parse && schemas == map[]
    {
      this.config, this.parse := config, parse;
      schemas := map[];
    }

    /** Every cached schema comes from its board's description. */
    ghost predicate Valid(source: Fingerprint -> seq<Declaration>)
      reads this
    {
      forall fp :: fp in schemas ==> CachedFrom(schemas[fp], source(fp))
    }

    /** `describe` is what the call returns if it is made at all; None when it
        raises.  The first outcome is kept, a failure included. */
    method DateVars(fp: Fingerprint, describe: Option<seq<Declaration>>, ghost source: Fingerprint -> seq<Declaration>)
      returns (schema: Schema)
      requires Valid(source) && (describe.Some? ==> describe.value == source(fp))
      modifies this`schemas
      ensures Valid(source) && fp in schemas && schema == schemas[fp]
      ensures fp in old(schemas) ==> schemas == old(schemas)
      ensures fp !in old(schemas) ==>
        schemas == old(schemas)[fp := if describe.Some? then DateVarsOf(describe.value) else map[]]
    {
      if fp !in schemas {
        var info := if describe.Some? then describe.value else [];
        schemas := schemas[fp := DateVarsOf(info)];
      }
      schema := schemas[fp];
    }

    /** The loop answers at the first variable that is not a past date. */
    method AllInPast(schema: Schema, variables: map<string, string>, today: int) returns (past: bool)
      ensures past <==> AllPast(parse, schema, variables, today)
      ensures past <==> DatesBefore(parse, schema, variables, today)
    {
      AllPastMeans(parse, schema, variables, today);
      var left := schema.Keys;
      while left != {}
        invariant left <= schema.Keys
        invariant forall name :: name in schema && name !in left ==>
          Past(parse, ValueOf(schema, name, variables), today)
        decreases |left|
      {
        var name :| name in left;
        var raw := if name in variables then Some(variables[name]) else schema[name];
        if raw.None? { return false; }
        var value := parse(Prefix(raw.value, 10));
        if value.None? { return false; }
        if value.value >= today { return false; }
        left := left - {name};
      }
      past := true;
    }

    method GetFreshness(fp: Fingerprint, describe: Option<seq<Declaration>>, variables: map<string, string>,
                        renderedAt: Option<int>, now: int, today: int, ghost source: Fingerprint -> seq<Declaration>)
      returns (freshness: Freshness)
      requires Valid(source) && (describe.Some? ==> describe.value == source(fp))
      modifies this`schemas
      ensures Valid(source)
      ensures forall f :: f in old(schemas) ==> f in schemas && schemas[f] == old(schemas)[f]
      ensures
        var schema := if fp in schemas then schemas[fp] else map[];
        freshness == FreshnessOf(config, parse, schema, variables, renderedAt, now, today)
      // The verdict in terms of dates and seconds.
      ensures freshness.Missing? <==> renderedAt.None?
      ensures freshness.Frozen? <==>
        && renderedAt.Some? && config.frozenDateVars
        && fp in schemas && schemas[fp] != map[] && DatesBefore(parse, schemas[fp], variables, today)
      ensures freshness.Fresh? <==>
        renderedAt.Some? && !freshness.Frozen? && now < (renderedAt.value + config.defaultTtl) * 1_000_000
      ensures freshness.Stale? <==>
        renderedAt.Some? && !freshness.Frozen? && now >= (renderedAt.value + config.defaultTtl) * 1_000_000
    {
      if fp in schemas { AllPastMeans(parse, schemas[fp], variables, today); }
      if renderedAt.None? { return Missing; }
      if config.frozenDateVars {
        var schema := DateVars(fp, describe, source);
        if schema != map[] {
          var past := AllInPast(schema, variables, today);
          if past { return Frozen; }
        }
      }
      var age := now - renderedAt.value * 1_000_000;
      freshness := if age < config.defaultTtl * 1_000_000 then Fresh else Stale;
    }

    method IsFrozen(describe: Option<seq<Declaration>>, variables: map<string, string>, today: int)
      returns (frozen: Option<bool>)
      ensures frozen == FrozenOf(config, parse, describe, variables, today)
      ensures frozen.None? <==> config.frozenDateVars && describe.None?
      ensures frozen == Some(true) <==>
        && config.frozenDateVars && describe.Some?
        && DateVarsOf(describe.value) != map[] && DatesBefore(parse, DateVarsOf(describe.value), variables, today)
    {
      if describe.Some? { AllPastMeans(parse, DateVarsOf(describe.value), variables, today); }
      if !config.frozenDateVars { return Some(false); }
      if describe.None? { return None; }
      var schema := DateVarsOf(describe.value);
      if schema == map[] { return Some(false); }
      var past := AllInPast(schema, variables, today);
      frozen := Some(past);
    }
  }
}
