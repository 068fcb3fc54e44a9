/** wpa_ctrl/dpp.py: the key=value parameters of DPP commands and the hexdumps they carry. */
module Dpp {
  import opened EventLaws
  import opened Events
  import opened Octets
  import opened Ssid
  import opened Text
  import opened Wrappers

  // ----- format_params

  /** One keyword argument; None is Python's None and leaves the parameter out. */
  datatype Param = Param(name: string, value: Option<string>)

  /** The parameters that are given, under the names that are sent. */
  function GivenFields(params: seq<Param>): seq<Field> {
    if params == [] then []
    else
      var earlier, last := GivenFields(params[..|params| - 1]), params[|params| - 1];
      match last.value
      case None => earlier
      case Some(value) => earlier + [Field(SentName(last), Bare(value))]
  }

  /** Trailing underscores let a keyword of Python name a parameter. */
  function SentName(p: Param): string {
    RStrip(p.name, '_')
  }

  function FormatParams(params: seq<Param>): string {
    Join(" ", FieldTexts(GivenFields(params)))
  }

  predicate CleanParam(p: Param) {
    p.value.Some? ==> CleanKey(SentName(p)) && ' ' !in p.value.value && '\"' !in p.value.value
  }

  lemma {:induction false} GivenFieldsClean(params: seq<Param>)
    requires forall i | 0 <= i < |params| :: CleanParam(params[i])
    ensures forall i | 0 <= i < |GivenFields(params)| :: CleanField(GivenFields(params)[i])
  {
    if params != [] {
      assert CleanParam(params[|params| - 1]);
      GivenFieldsClean(params[..|params| - 1]);
    }
  }

  /** What the parameters say, the last one winning where two are sent under one name. */
  function ParamMap(params: seq<Param>): map<string, string> {
    if params == [] then map[]
    else
      var earlier, last := ParamMap(params[..|params| - 1]), params[|params| - 1];
      match last.value
      case None => earlier
      case Some(value) => earlier[SentName(last) := value]
  }

  lemma {:induction false} FieldMapOfGiven(params: seq<Param>)
    ensures FieldMap(GivenFields(params)) == ParamMap(params)
  {
    if params != [] {
      var earlier := GivenFields(params[..|params| - 1]);
      FieldMapOfGiven(params[..|params| - 1]);
      assert GivenFields(params) != earlier ==> GivenFields(params)[..|earlier|] == earlier;
    }
  }

  /** Reading a parameter string as an event payload gives back the parameters that were given. */
  lemma ParamsReadBack(params: seq<Param>)
    requires forall i | 0 <= i < |params| :: CleanParam(params[i])
    ensures Params(FormatParams(params)) == ParamMap(params)
  {
    GivenFieldsClean(params);
    PayloadReadsBack(GivenFields(params));
    FieldMapOfGiven(params);
  }

  /** A given parameter is found under the name that was sent, unless a later one is sent under it too. */
  lemma {:induction false} ParamMapFound(params: seq<Param>, i: nat)
    requires i < |params| && params[i].value.Some?
    requires forall n | i < n < |params| :: SentName(params[n]) != SentName(params[i])
    ensures SentName(params[i]) in ParamMap(params)
    ensures ParamMap(params)[SentName(params[i])] == params[i].value.value
    decreases |params|
  {
    if i < |params| - 1 {
      ParamMapFound(params[..|params| - 1], i);
    }
  }

  /** A name under which no given parameter is sent is not found. */
  lemma {:induction false} ParamMapLacks(params: seq<Param>, key: string)
    requires forall n | 0 <= n < |params| && params[n].value.Some? :: SentName(params[n]) != key
    ensures key !in ParamMap(params)
  {
    if params != [] {
      ParamMapLacks(params[..|params| - 1], key);
    }
  }

  // ----- hexdumps and the configurator's parameters

  /** What a field is given as: text, or the octets themselves. */
  datatype DppText = Characters(text: string) | Raw(octets: seq<Octet>)

  function OctetsOf(t: DppText): seq<Octet> {
    match t
    case Characters(text) => Utf8(text)
    case Raw(octets) => octets
  }

  predicate IsEmpty(t: DppText) {
    t == Characters("") || t == Raw([])
  }

  function DppHex(t: DppText): Result<string> {
    if IsEmpty(t) then Err(ValueError) else Ok(Hex(OctetsOf(t)))
  }

  /** The hexdump decodes to the octets it was made of; only nothing at all is refused. */
  lemma DppHexReadsBack(t: DppText)
    ensures DppHex(t).Ok? <==> OctetsOf(t) != []
    ensures DppHex(t).Ok? ==> FromConfig(DppHex(t).value) == Ok(OctetsOf(t))
  {
    FromConfigHex(OctetsOf(t));
  }

  predicate DistinctNames(params: seq<Param>) {
    forall i, j | 0 <= i < j < |params| :: params[i].name != params[j].name
  }

  /** The parameter the secret becomes. An empty passphrase is false in Python, and then it is psk=None. */
  function SecretParam(passphrase: Option<string>, psk: Option<string>): Param {
    if passphrase.Some? && passphrase.value != "" then Param("pass", Some(Hex(Utf8(passphrase.value))))
    else Param("psk", psk)
  }

  function ConfiguratorParams(conf: string, ssid: string, secret: Param, configurator: Option<string>,
                              extra: seq<Param>): seq<Param> {
    [Param("conf", Some(conf)), Param("ssid", Some(ssid)), secret, Param("configurator", configurator)] + extra
  }

  /** dpp_configurator_params; a keyword given twice is Python's TypeError. */
  function DppConfiguratorParams(conf: string, ssid: DppText, passphrase: Option<string>, psk: Option<string>,
                                 configurator: Option<string>, extra: seq<Param>): Result<string> {
    if passphrase.None? == psk.None? then Err(ValueError)
    else if psk.Some? && !IsRawPsk(psk.value) then Err(ValueError)
    else
      match DppHex(ssid)
      case Err(e) => Err(e)
      case Ok(hex) =>
        var params := ConfiguratorParams(conf, hex, SecretParam(passphrase, psk), configurator, extra);
        if DistinctNames(params) then Ok(FormatParams(params)) else Err(TypeError)
  }

  predicate OwnName(s: string) {
    s == "conf" || s == "ssid" || s == "pass" || s == "psk" || s == "configurator"
  }

  /** Extra parameters that can be read back and are sent under none of the function's own names. */
  predicate CleanExtra(extra: seq<Param>) {
    forall i | 0 <= i < |extra| :: CleanParam(extra[i]) && !OwnName(SentName(extra[i]))
  }

  predicate CleanText(s: string) {
    ' ' !in s && '\"' !in s
  }

  lemma HexIsClean(s: string)
    requires AllHex(s)
    ensures CleanText(s)
  {
  }

  lemma OwnNames()
    ensures RStrip("conf", '_') == "conf" && RStrip("ssid", '_') == "ssid" && RStrip("pass", '_') == "pass"
    ensures RStrip("psk", '_') == "psk" && RStrip("configurator", '_') == "configurator"
    ensures CleanKey("conf") && CleanKey("ssid") && CleanKey("pass") && CleanKey("psk")
    ensures CleanKey("configurator")
    ensures OwnName("conf") && OwnName("ssid") && OwnName("pass") && OwnName("psk")
  {
  }

  /** A parameter list as the function builds it: its own four parameters, then the extra ones. */
  predicate Built(params: seq<Param>) {
    && |params| >= 4 && params[0].name == "conf" && params[0].value.Some? && params[1].name == "ssid"
    && params[1].value.Some? && (params[2].name == "pass" || params[2].name == "psk")
    && params[3].name == "configurator"
    && (forall i | 0 <= i < |params| :: CleanParam(params[i]))
    && (forall i | 4 <= i < |params| :: !OwnName(SentName(params[i])))
  }

  lemma OwnParamClean(p: Param)
    requires OwnName(p.name) && (p.value.Some? ==> CleanText(p.value.value))
    ensures CleanParam(p)
  {
    OwnNames();
  }

  lemma HexParamClean(p: Param)
    requires OwnName(p.name) && (p.value.Some? ==> AllHex(p.value.value))
    ensures CleanParam(p)
  {
    if p.value.Some? {
      HexIsClean(p.value.value);
    }
    OwnParamClean(p);
  }

  lemma ConfiguratorParamsBuilt(conf: string, ssid: string, secret: Param, configurator: Option<string>,
                                extra: seq<Param>)
    requires CleanText(conf) && AllHex(ssid) && CleanExtra(extra)
    requires configurator.Some? ==> CleanText(configurator.value)
    requires secret.name == "pass" || secret.name == "psk"
    requires secret.value.Some? ==> AllHex(secret.value.value)
    ensures Built(ConfiguratorParams(conf, ssid, secret, configurator, extra))
  {
    var params := ConfiguratorParams(conf, ssid, secret, configurator, extra);
    OwnParamClean(params[0]);
    HexParamClean(params[1]);
    HexParamClean(secret);
    OwnParamClean(params[3]);
    assert forall i | 4 <= i < |params| :: params[i] == extra[i - 4];
  }

  lemma BuiltNames(params: seq<Param>)
    requires Built(params)
    ensures SentName(params[0]) == "conf" && SentName(params[1]) == "ssid"
    ensures SentName(params[2]) == params[2].name && SentName(params[3]) == "configurator"
  {
    OwnNames();
  }

  /** A name of the function's own is sent for one of its own parameters, never for an extra one. */
  lemma OwnNameIsOwn(params: seq<Param>, n: nat, name: string)
    requires Built(params) && 4 <= n < |params| && OwnName(name)
    ensures SentName(params[n]) != name
  {
  }

  /** The function's own parameters and the extra ones are sent under different names. */
  lemma BuiltApart(params: seq<Param>, i: nat)
    requires Built(params) && i < 3
    ensures forall n | i < n < |params| :: SentName(params[n]) != SentName(params[i])
  {
    BuiltNames(params);
    forall n | i < n < |params| ensures SentName(params[n]) != SentName(params[i]) {
      if n >= 4 {
        OwnNameIsOwn(params, n, SentName(params[i]));
      }
    }
  }

  lemma OwnFound(params: seq<Param>, i: nat)
    requires Built(params) && i < 3 && params[i].value.Some?
    ensures var m := Params(FormatParams(params));
      SentName(params[i]) in m && m[SentName(params[i])] == params[i].value.value
  {
    ParamsReadBack(params);
    BuiltApart(params, i);
    ParamMapFound(params, i);
  }

  predicate IsSecretName(name: string) {
    name == "pass" || name == "psk"
  }

  lemma SecretNameApart(params: seq<Param>, name: string)
    requires Built(params) && IsSecretName(name) && (params[2].value.Some? ==> params[2].name != name)
    ensures forall n | 0 <= n < |params| && params[n].value.Some? :: SentName(params[n]) != name
  {
    BuiltNames(params);
    forall n | 0 <= n < |params| && params[n].value.Some? ensures SentName(params[n]) != name {
      if n >= 4 {
        OwnNameIsOwn(params, n, name);
      }
    }
  }

  lemma OwnLacks(params: seq<Param>, name: string)
    requires Built(params) && IsSecretName(name) && (params[2].value.Some? ==> params[2].name != name)
    ensures name !in Params(FormatParams(params))
  {
    ParamsReadBack(params);
    SecretNameApart(params, name);
    ParamMapLacks(params, name);
  }

  lemma ConfFound(params: seq<Param>)
    requires Built(params)
    ensures var m := Params(FormatParams(params)); "conf" in m && m["conf"] == params[0].value.value
  {
    OwnFound(params, 0);
    BuiltNames(params);
  }

  lemma SsidFound(params: seq<Param>)
    requires Built(params)
    ensures var m := Params(FormatParams(params)); "ssid" in m && m["ssid"] == params[1].value.value
  {
    OwnFound(params, 1);
    BuiltNames(params);
  }

  lemma SecretFound(params: seq<Param>, other: string)
    requires Built(params) && other == if params[2].name == "pass" then "psk" else "pass"
    ensures var m := Params(FormatParams(params)); var secret := params[2];
      && other !in m
      && (secret.name in m <==> secret.value.Some?)
      && (secret.value.Some? ==> m[secret.name] == secret.value.value)
  {
    OwnLacks(params, other);
    if params[2].value.Some? {
      OwnFound(params, 2);
      BuiltNames(params);
    } else {
      OwnLacks(params, params[2].name);
    }
  }

  lemma SecretIsHex(passphrase: Option<string>, psk: Option<string>)
    requires psk.Some? ==> IsRawPsk(psk.value)
    ensures var secret := SecretParam(passphrase, psk);
      IsSecretName(secret.name) && (secret.value.Some? ==> AllHex(secret.value.value))
  {
  }

  lemma NetworkReadsBack(params: seq<Param>, conf: string, ssid: DppText)
    requires Built(params) && params[0].value == Some(conf)
    requires DppHex(ssid).Ok? && params[1].value == Some(DppHex(ssid).value)
    ensures var m := Params(FormatParams(params));
      "conf" in m && m["conf"] == conf && "ssid" in m && FromConfig(m["ssid"]) == Ok(OctetsOf(ssid))
  {
    ConfFound(params);
    SsidFound(params);
    DppHexReadsBack(ssid);
  }

  lemma PassReadsBack(params: seq<Param>, passphrase: string)
    requires Built(params) && params[2] == Param("pass", Some(Hex(Utf8(passphrase))))
    ensures var m := Params(FormatParams(params));
      "pass" in m && FromConfig(m["pass"]) == Ok(Utf8(passphrase)) && "psk" !in m
  {
    SecretFound(params, "psk");
    FromConfigHex(Utf8(passphrase));
  }

  lemma PskReadsBack(params: seq<Param>, psk: Option<string>)
    requires Built(params) && params[2] == Param("psk", psk)
    ensures var m := Params(FormatParams(params));
      "pass" !in m && ("psk" in m <==> psk.Some?) && (psk.Some? ==> m["psk"] == psk.value)
  {
    SecretFound(params, "pass");
  }

  lemma SecretReadsBack(params: seq<Param>, passphrase: Option<string>, psk: Option<string>)
    requires Built(params) && params[2] == SecretParam(passphrase, psk) && passphrase.None? != psk.None?
    ensures var m := Params(FormatParams(params));
      && ("pass" in m <==> passphrase.Some? && passphrase.value != "")
      && ("pass" in m ==> FromConfig(m["pass"]) == Ok(Utf8(passphrase.value)))
      && ("psk" in m <==> psk.Some?)
      && ("psk" in m ==> m["psk"] == psk.value)
  {
    if passphrase.Some? && passphrase.value != "" {
      PassReadsBack(params, passphrase.value);
    } else {
      PskReadsBack(params, psk);
    }
  }

  /** What the daemon reads out of the parameter string: the network's octets and the secret, decoded, and
      a secret at all exactly when the passphrase was not empty. */
  lemma ConfiguratorParamsReadBack(conf: string, ssid: DppText, passphrase: Option<string>,
                                   psk: Option<string>, configurator: Option<string>, extra: seq<Param>)
    requires CleanText(conf) && CleanExtra(extra) && (configurator.Some? ==> CleanText(configurator.value))
    requires DppConfiguratorParams(conf, ssid, passphrase, psk, configurator, extra).Ok?
    ensures var m := Params(DppConfiguratorParams(conf, ssid, passphrase, psk, configurator, extra).value);
      && ("conf" in m && m["conf"] == conf)
      && ("ssid" in m && FromConfig(m["ssid"]) == Ok(OctetsOf(ssid)))
      && ("pass" in m <==> passphrase.Some? && passphrase.value != "")
      && ("pass" in m ==> FromConfig(m["pass"]) == Ok(Utf8(passphrase.value)))
      && ("psk" in m <==> psk.Some?)
      && ("psk" in m ==> m["psk"] == psk.value)
      && ("pass" in m || "psk" in m <==> passphrase != Some(""))
  {
    var hex, secret := DppHex(ssid).value, SecretParam(passphrase, psk);
    var params := ConfiguratorParams(conf, hex, secret, configurator, extra);
    SecretIsHex(passphrase, psk);
    ConfiguratorParamsBuilt(conf, hex, secret, configurator, extra);
    NetworkReadsBack(params, conf, ssid);
    SecretReadsBack(params, passphrase, psk);
  }

  /** The documentation says a call without a secret is refused. An empty passphrase is let through, and
      the string then names no secret. */
  lemma EmptyPassphraseSendsNoSecret(conf: string, ssid: DppText)
    requires CleanText(conf) && OctetsOf(ssid) != []
    ensures var r := DppConfiguratorParams(conf, ssid, Some(""), None, None, []);
      r.Ok? && "ssid" in Params(r.value) && "pass" !in Params(r.value) && "psk" !in Params(r.value)
  {
    DppHexReadsBack(ssid);
    OwnNamesDistinct(ConfiguratorParams(conf, DppHex(ssid).value, Param("psk", None), None, []));
    ConfiguratorParamsReadBack(conf, ssid, Some(""), None, None, []);
  }

  lemma OwnNamesDistinct(params: seq<Param>)
    requires |params| == 4 && params[0].name == "conf" && params[1].name == "ssid" && params[2].name == "psk"
    requires params[3].name == "configurator"
    ensures DistinctNames(params)
  {
  }
}
