/** The prediction endpoint's translation of a JSON request body into the
    command-line arguments of the forecasting script. */
module PredictArgs {
  import opened Outcomes

  /** A parsed JSON value. */
  datatype Json =
    | JNull
    | JBool(b: bool)
    | JNumber(n: real)
    | JString(s: string)
    | JArray(items: seq<Json>)
    | JObject(fields: map<string, Json>)

  /** A request field and the script flag it becomes. */
  datatype CliOption = CliOptionOf(key: string, flag: string)

  /** The four optional fields, in the order they are appended. */
  const Options: seq<CliOption> := [
    CliOptionOf("refillThreshold", "--refill_threshold"),
    CliOptionOf("refillAmount", "--refill_amount"),
    CliOptionOf("refillTargetPostLevel", "--refill_target_post_level"),
    CliOptionOf("forecastDays", "--forecast_days")]

  /** `typeof body[key] === 'number'`: the body is an object whose field is a
      JSON number. Any other body (a string, a number, an array) has no
      such property. */
  predicate IsNumber(body: Json, key: string) {
    body.JObject? && key in body.fields && body.fields[key].JNumber?
  }

  /** The arguments `push`ed for one option: its flag and `String(value)`,
      or nothing. `render` is JavaScript's number-to-string conversion. */
  function Pushed(body: Json, o: CliOption, render: real -> string): seq<string> {
    if IsNumber(body, o.key) then [o.flag, render(body.fields[o.key].n)] else []
  }

  /** The positions in `opts` of the options whose field is a number, in
      ascending order. */
  function Chosen(body: Json, opts: seq<CliOption>): (c: seq<nat>)
    ensures |c| <= |opts|
    ensures forall m :: 0 <= m < |c| ==> c[m] < |opts|
    ensures forall m, m' :: 0 <= m < m' < |c| ==> c[m] < c[m']
    ensures forall j :: 0 <= j < |opts| ==> (j in c <==> IsNumber(body, opts[j].key))
    decreases |opts|
  {
    if |opts| == 0 then []
    else
      var init := opts[..|opts| - 1];
      var before := Chosen(body, init);
      assert forall j :: 0 <= j < |init| ==> init[j] == opts[j];
      if IsNumber(body, opts[|opts| - 1].key) then before + [|opts| - 1] else before
  }

  /** The arguments after appending for each option of `opts` in turn:
      for the `m`-th chosen option, its flag at `2m` and its value at
      `2m + 1`, and nothing else. */
  function ArgsFrom(body: Json, opts: seq<CliOption>, render: real -> string): (args: seq<string>)
    ensures |args| == 2 * |Chosen(body, opts)|
    ensures forall m :: 0 <= m < |Chosen(body, opts)| ==>
      var o := opts[Chosen(body, opts)[m]];
      args[2 * m] == o.flag && args[2 * m + 1] == render(body.fields[o.key].n)
    decreases |opts|
  {
    if |opts| == 0 then []
    else
      var init := opts[..|opts| - 1];
      var before := ArgsFrom(body, init, render);
      PushedPairs(body, opts, before, render);
      before + Pushed(body, opts[|opts| - 1], render)
  }

  /** Appending the last option's pair extends the pairing of the others. */
  lemma PushedPairs(body: Json, opts: seq<CliOption>, before: seq<string>, render: real -> string)
    requires |opts| > 0
    requires var init := opts[..|opts| - 1]; var cb := Chosen(body, init);
      |before| == 2 * |cb| && forall m :: 0 <= m < |cb| ==>
        before[2 * m] == init[cb[m]].flag && before[2 * m + 1] == render(body.fields[init[cb[m]].key].n)
    ensures var args := before + Pushed(body, opts[|opts| - 1], render);
      var c := Chosen(body, opts);
      |args| == 2 * |c| && forall m :: 0 <= m < |c| ==>
        args[2 * m] == opts[c[m]].flag && args[2 * m + 1] == render(body.fields[opts[c[m]].key].n)
  {
    var init := opts[..|opts| - 1];
    var args := before + Pushed(body, opts[|opts| - 1], render);
    var cb := Chosen(body, init);
    var c := Chosen(body, opts);
    forall m | 0 <= m < |c|
      ensures args[2 * m] == opts[c[m]].flag && args[2 * m + 1] == render(body.fields[opts[c[m]].key].n)
    {
      if m < |cb| {
        assert c[m] == cb[m] && opts[c[m]] == init[cb[m]];
        assert args[2 * m] == before[2 * m] && args[2 * m + 1] == before[2 * m + 1];
      }
    }
  }

  /** `buildArgs`: `None` is the `TypeError` of reading a property of
      `null`, which the handler turns into an error response; every other
      body yields, in the fixed order of the four options, the flag of each
      numeric field followed by its value. */
  function BuildArgs(body: Json, render: real -> string): (r: Option<seq<string>>)
    ensures r.None? <==> body.JNull?
    ensures r.Some? ==> r.value == ArgsFrom(body, Options, render)
    ensures !body.JObject? && !body.JNull? ==> r == Some([])
  {
    if body.JNull? then None
    else
      NoFieldsNoArgs(body, Options, render);
      Some(ArgsFrom(body, Options, render))
  }

  /** A body that is not an object contributes no arguments. */
  lemma NoFieldsNoArgs(body: Json, opts: seq<CliOption>, render: real -> string)
    ensures !body.JObject? ==> ArgsFrom(body, opts, render) == []
  {
    NoneChosen(body, opts);
  }

  /** With no numeric field among `opts`, no option is chosen. */
  lemma {:induction false} NoneChosen(body: Json, opts: seq<CliOption>)
    ensures (forall j :: 0 <= j < |opts| ==> !IsNumber(body, opts[j].key)) ==> Chosen(body, opts) == []
    decreases |opts|
  {
    if |opts| > 0 {
      var init := opts[..|opts| - 1];
      NoneChosen(body, init);
      assert forall j :: 0 <= j < |init| ==> init[j] == opts[j];
    }
  }

  /** `request.json().catch(() => ({}))`: a body that does not parse is the
      empty object, which yields no arguments. */
  function RequestArgs(parsed: Option<Json>, render: real -> string): (r: Option<seq<string>>)
    ensures parsed.None? ==> r == Some([])
    ensures parsed.Some? ==> r == BuildArgs(parsed.value, render)
  {
    match parsed
    case None =>
      NoArgsForEmptyObject(render);
      BuildArgs(JObject(map[]), render)
    case Some(body) => BuildArgs(body, render)
  }

  /** The empty object has no numeric fields. */
  lemma NoArgsForEmptyObject(render: real -> string)
    ensures BuildArgs(JObject(map[]), render) == Some([])
  {
    var e: Json := JObject(map[]);
    NoneChosen(e, Options);
    assert ArgsFrom(e, Options, render) == [];
    assert BuildArgs(e, render) == Some([]);
  }

  /** A body with keys in an unusual order, one numeric field given as a
      string and one as `null`. */
  const MixedBody: Json := JObject(map["forecastDays" := JNumber(7.0), "refillAmount" := JString("400"),
    "refillThreshold" := JNumber(50.0), "refillTargetPostLevel" := JNull])

  /** Only numbers count: a field given as a string or `null` adds nothing,
      and the flags come out in the fixed order, whatever the order of the
      keys in the body. */
  lemma OnlyNumbersExample(render: real -> string)
    ensures BuildArgs(MixedBody, render) == Some(["--refill_threshold", render(50.0), "--forecast_days", render(7.0)])
  {
    MixedChosen();
    var c := Chosen(MixedBody, Options);
    assert c[0] == 0 && c[1] == 3;
    assert Options[0] == CliOptionOf("refillThreshold", "--refill_threshold");
    assert Options[3] == CliOptionOf("forecastDays", "--forecast_days");
    assert MixedBody.fields["refillThreshold"].n == 50.0 && MixedBody.fields["forecastDays"].n == 7.0;
    var args := ArgsFrom(MixedBody, Options, render);
    assert args[0] == "--refill_threshold" && args[2] == "--forecast_days";
    assert args[1] == render(50.0) && args[3] == render(7.0);
    assert args == ["--refill_threshold", render(50.0), "--forecast_days", render(7.0)];
    assert !MixedBody.JNull?;
  }

  /** The numeric fields of the mixed body are the first and the last. */
  lemma MixedChosen()
    ensures Chosen(MixedBody, Options) == [0, 3]
  {
    var body := MixedBody;
    assert IsNumber(body, Options[0].key) && !IsNumber(body, Options[1].key);
    assert !IsNumber(body, Options[2].key) && IsNumber(body, Options[3].key);
    assert Options[..3][..2] == Options[..2] && Options[..2][..1] == Options[..1];
    assert Options[..1][..0] == [];
    assert Chosen(body, Options[..1]) == [0];
    assert Chosen(body, Options[..3]) == [0];
  }
}
