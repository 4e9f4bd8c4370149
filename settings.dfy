/** The bot's configuration, read from the process environment. The environment
    is a parameter: a map from variable name to value. */
module Settings {
  import opened Wrappers
  import opened Text

  /** `[t.strip() for t in tokens]`. */
  function StripAll(tokens: seq<string>): (ts: seq<string>)
    ensures |ts| == |tokens|
    ensures forall k :: 0 <= k < |ts| ==> ts[k] == Strip(tokens[k])
  {
    seq(|tokens|, k requires 0 <= k < |tokens| => Strip(tokens[k]))
  }

  /** What one stripped token contributes: its value when it is a non-empty run
      of ASCII digits (`isdigit`), nothing otherwise, so blank and signed tokens
      are dropped. */
  function TokenIds(t: string): (ids: seq<int>)
    ensures |ids| <= 1 && (ids != [] <==> IsDigits(t))
    ensures ids != [] ==> ids[0] == DigitsValue(t)
  {
    if IsDigits(t) then [DigitsValue(t)] else []
  }

  /** The ids named by the stripped tokens, in token order, repetitions kept. */
  function IdsOf(ts: seq<string>): (ids: seq<int>)
    ensures |ids| <= |ts|
    ensures forall i :: 0 <= i < |ids| ==> ids[i] >= 0
    decreases |ts|
  {
    if ts == [] then [] else TokenIds(ts[0]) + IdsOf(ts[1..])
  }

  /** An id is listed iff some stripped token is its digits. */
  lemma {:induction false} IdsOfMembers(ts: seq<string>, x: int)
    ensures x in IdsOf(ts) <==> exists t :: t in ts && IsDigits(t) && DigitsValue(t) == x
    decreases |ts|
  {
    if ts != [] {
      IdsOfMembers(ts[1..], x);
      assert ts == [ts[0]] + ts[1..];
    }
  }

  /** `ADMIN_IDS`: the comma-separated tokens of the text whose stripped form is
      all digits, read as numbers. */
  function AdminIds(text: string): seq<int> {
    IdsOf(StripAll(Split(text, ',')))
  }

  /** A kept token is read by `int` as its digits' value. */
  lemma KeptTokenParses(t: string)
    requires IsDigits(t)
    ensures ParseInt(t) == Ok(DigitsValue(t))
  {
    assert IsDigit(t[0]);
    DigitsStripped(t);
  }

  /** The kept ids keep the order of the tokens: reading distributes over
      concatenation. */
  lemma {:induction false} IdsOfConcat(a: seq<string>, b: seq<string>)
    ensures IdsOf(a + b) == IdsOf(a) + IdsOf(b)
    decreases |a|
  {
    if a == [] {
      assert a + b == b;
    } else {
      assert (a + b)[1..] == a[1..] + b;
      IdsOfConcat(a[1..], b);
    }
  }

  /** The unset default, the empty text, names no administrator. */
  lemma NoAdminsByDefault()
    ensures AdminIds("") == []
  {
    assert Split("", ',') == [[]];
    assert StripAll([[]]) == [[]];
  }

  /** The decimal texts of the ids. */
  function IdTexts(ids: seq<int>): (ts: seq<string>)
    requires forall k :: 0 <= k < |ids| ==> ids[k] >= 0
    ensures |ts| == |ids|
    ensures forall k :: 0 <= k < |ts| ==> ts[k] == NatToString(ids[k])
  {
    seq(|ids|, k requires 0 <= k < |ids| => NatToString(ids[k]))
  }

  /** Each decimal text of an id names that id. */
  lemma {:induction false} IdsOfTexts(ids: seq<int>)
    requires forall k :: 0 <= k < |ids| ==> ids[k] >= 0
    ensures IdsOf(IdTexts(ids)) == ids
    decreases |ids|
  {
    if ids != [] {
      NatToStringValue(ids[0]);
      assert IdTexts(ids)[1..] == IdTexts(ids[1..]);
      IdsOfTexts(ids[1..]);
    }
  }

  /** Runs of digits have no blank ends, so stripping leaves them alone. */
  lemma DigitsStripped(t: string)
    requires IsDigits(t)
    ensures Strip(t) == t
  {
    assert IsDigit(t[0]) && IsDigit(t[|t| - 1]);
    StripUnchanged(t);
  }

  lemma DigitTokensStripped(ts: seq<string>)
    requires forall k :: 0 <= k < |ts| ==> IsDigits(ts[k])
    ensures StripAll(ts) == ts
  {
    var stripped := StripAll(ts);
    forall k | 0 <= k < |ts|
      ensures stripped[k] == ts[k]
    {
      DigitsStripped(ts[k]);
    }
  }

  /** Writing non-negative ids comma-separated gives back exactly those ids. */
  lemma AdminIdsRoundTrip(ids: seq<int>, text: string)
    requires |ids| >= 1
    requires forall k :: 0 <= k < |ids| ==> ids[k] >= 0
    requires text == Join(IdTexts(ids), ',')
    ensures AdminIds(text) == ids
  {
    var ts := IdTexts(ids);
    IdTextsHaveNoComma(ids);
    SplitJoin(ts, ',');
    DigitTokensStripped(ts);
    assert StripAll(Split(text, ',')) == ts;
    IdsOfTexts(ids);
  }

  lemma IdTextsHaveNoComma(ids: seq<int>)
    requires forall k :: 0 <= k < |ids| ==> ids[k] >= 0
    ensures forall k :: 0 <= k < |ids| ==> IsDigits(IdTexts(ids)[k]) && ',' !in IdTexts(ids)[k]
  {
    var ts := IdTexts(ids);
    forall k | 0 <= k < |ts|
      ensures ',' !in ts[k]
    {
      assert IsDigits(ts[k]);
    }
  }

  // ---------------------------------------------------------------------------
  // Loading the settings
  // ---------------------------------------------------------------------------

  datatype Config = Config(botToken: string, adminIds: seq<int>, booksPerPage: int, reminderDaysBefore: int)

  /** `os.getenv(name, default)`. */
  function GetEnv(env: map<string, string>, name: string, default: string): string {
    if name in env then env[name] else default
  }

  /** The settings module, top to bottom: a missing or empty BOT_TOKEN raises
      ValueError; the admin list never fails (for ASCII digits); BOOKS_PER_PAGE
      (default "5") and then REMINDER_DAYS_BEFORE (default "1") go through `int`,
      which raises ValueError on a malformed value. */
  function LoadConfig(env: map<string, string>): (r: Outcome<Config>)
    ensures r.Raised? ==> r.error == ValueError
    ensures r.Ok? <==>
      && "BOT_TOKEN" in env && env["BOT_TOKEN"] != ""
      && ParseInt(GetEnv(env, "BOOKS_PER_PAGE", "5")).Ok?
      && ParseInt(GetEnv(env, "REMINDER_DAYS_BEFORE", "1")).Ok?
    ensures r.Ok? ==> "BOT_TOKEN" in env && r.value.botToken == env["BOT_TOKEN"]
    ensures r.Ok? ==> r.value.adminIds == AdminIds(GetEnv(env, "ADMIN_IDS_STR", ""))
    ensures r.Ok? ==> ParseInt(GetEnv(env, "BOOKS_PER_PAGE", "5")) == Ok(r.value.booksPerPage)
    ensures r.Ok? ==> ParseInt(GetEnv(env, "REMINDER_DAYS_BEFORE", "1")) == Ok(r.value.reminderDaysBefore)
  {
    if "BOT_TOKEN" !in env || env["BOT_TOKEN"] == "" then Raised(ValueError)
    else
      var admins := AdminIds(GetEnv(env, "ADMIN_IDS_STR", ""));
      var perPage := ParseInt(GetEnv(env, "BOOKS_PER_PAGE", "5"));
      if perPage.Raised? then Raised(perPage.error)
      else
        var reminder := ParseInt(GetEnv(env, "REMINDER_DAYS_BEFORE", "1"));
        if reminder.Raised? then Raised(reminder.error)
        else Ok(Config(env["BOT_TOKEN"], admins, perPage.value, reminder.value))
  }

  /** With only a bot token set, no one is an administrator, pages hold five
      books and reminders go out one day ahead. */
  lemma DefaultConfig(env: map<string, string>, token: string)
    requires token != "" && env == map["BOT_TOKEN" := token]
    ensures LoadConfig(env) == Ok(Config(token, [], 5, 1))
  {
    DefaultEnvReads(env, token);
    var r := LoadConfig(env);
    assert r.Ok?;
    assert r.value.adminIds == [] && r.value.booksPerPage == 5 && r.value.reminderDaysBefore == 1;
  }

  lemma DefaultEnvReads(env: map<string, string>, token: string)
    requires env == map["BOT_TOKEN" := token]
    ensures AdminIds(GetEnv(env, "ADMIN_IDS_STR", "")) == []
    ensures ParseInt(GetEnv(env, "BOOKS_PER_PAGE", "5")) == Ok(5)
    ensures ParseInt(GetEnv(env, "REMINDER_DAYS_BEFORE", "1")) == Ok(1)
  {
    assert "ADMIN_IDS_STR" !in env && "BOOKS_PER_PAGE" !in env && "REMINDER_DAYS_BEFORE" !in env;
    NoAdminsByDefault();
    DefaultsParse();
  }

  /** Without a bot token nothing else is read: loading fails with ValueError. */
  lemma MissingTokenFails(env: map<string, string>)
    requires "BOT_TOKEN" !in env || env["BOT_TOKEN"] == ""
    ensures LoadConfig(env) == Raised(ValueError)
  {
  }

  /** The default numbers parse. */
  lemma DefaultsParse()
    ensures ParseInt("5") == Ok(5) && ParseInt("1") == Ok(1)
  {
    IntRoundTrip(5);
    IntRoundTrip(1);
    assert IntToString(5) == "5" && IntToString(1) == "1";
  }
}
