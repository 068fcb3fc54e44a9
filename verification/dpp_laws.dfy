/** The parameter strings of DPP commands, as text, and which calls are refused. */
module DppLaws {
  import opened Dpp
  import opened EventLaws
  import opened Octets
  import opened Ssid
  import opened Text
  import opened Wrappers

  // ----- format_params, as text

  /** Two texts with a space between them, when neither is empty. */
  function Spaced(a: string, b: string): string {
    if a == "" then b else if b == "" then a else a + " " + b
  }

  lemma {:induction false} GivenAppend(a: seq<Param>, b: seq<Param>)
    ensures GivenFields(a + b) == GivenFields(a) + GivenFields(b)
  {
    if b == [] {
      assert a + b == a;
    } else {
      var n := |b| - 1;
      assert (a + b)[..|a + b| - 1] == a + b[..n];
      GivenAppend(a, b[..n]);
    }
  }

  lemma {:induction false} TextsAppend(a: seq<Field>, b: seq<Field>)
    ensures FieldTexts(a + b) == FieldTexts(a) + FieldTexts(b)
  {
    if b == [] {
      assert a + b == a;
    } else {
      var n := |b| - 1;
      assert (a + b)[..|a + b| - 1] == a + b[..n];
      TextsAppend(a, b[..n]);
    }
  }

  lemma JoinedIsEmpty(fields: seq<Field>)
    ensures Join(" ", FieldTexts(fields)) == "" <==> fields == []
  {
    if fields != [] {
      var texts := FieldTexts(fields);
      assert |texts[0]| == |FieldText(fields[0])| > 0;
    }
  }

  /** The parameters of a longer list are those of its two parts, a space between them. */
  lemma FormatAppend(a: seq<Param>, b: seq<Param>)
    ensures FormatParams(a + b) == Spaced(FormatParams(a), FormatParams(b))
  {
    var first, second := GivenFields(a), GivenFields(b);
    GivenAppend(a, b);
    TextsAppend(first, second);
    JoinedIsEmpty(first);
    JoinedIsEmpty(second);
    if first == [] {
      assert FieldTexts(first) + FieldTexts(second) == FieldTexts(second);
    } else if second == [] {
      assert FieldTexts(first) + FieldTexts(second) == FieldTexts(first);
    } else {
      JoinAppend(" ", FieldTexts(first), FieldTexts(second));
    }
  }

  /** One parameter: its name without the underscores at its end, an equals sign and its value; nothing when it
      is not given. */
  lemma FormatOne(name: string, underscores: nat, value: string)
    requires name == "" || name[|name| - 1] != '_'
    ensures FormatParams([Param(name + Repeated('_', underscores), Some(value))]) == name + "=" + value
    ensures FormatParams([Param(name, None)]) == ""
  {
    RStripRepeated(name, '_', underscores);
    OneGiven([Param(name + Repeated('_', underscores), Some(value))], name, value);
    NoneGiven([Param(name, None)]);
  }

  lemma NoneGiven(params: seq<Param>)
    requires |params| == 1 && params[0].value.None?
    ensures FormatParams(params) == ""
  {
    assert params[..0] == [] && GivenFields(params) == [];
  }

  lemma OneGiven(given: seq<Param>, name: string, value: string)
    requires |given| == 1 && SentName(given[0]) == name && given[0].value == Some(value)
    ensures FormatParams(given) == name + "=" + value
  {
    var field := Field(name, Bare(value));
    assert given[..0] == [] && GivenFields(given) == [] + [field] == [field];
    assert [field][..0] == [] && FieldTexts([field]) == [] + [FieldText(field)];
  }

  // ----- dpp_hex

  /** The hexdump of text is that of octets that decode to it, two lower-case digits for each. */
  lemma DppHexForm(t: DppText, i: nat)
    requires DppHex(t).Ok? && i < |OctetsOf(t)|
    ensures var hex := DppHex(t).value;
      |hex| == 2 * |OctetsOf(t)|
      && 16 * HexValue(hex[2 * i]) + HexValue(hex[2 * i + 1]) == OctetsOf(t)[i]
      && !('A' <= hex[2 * i] <= 'F') && !('A' <= hex[2 * i + 1] <= 'F')
    ensures t.Characters? ==> DecodeUtf8(OctetsOf(t)) == Some(t.text)
    ensures t.Raw? ==> OctetsOf(t) == t.octets
  {
    HexAt(OctetsOf(t), i);
    if t.Characters? {
      DecodesExactly(Utf8(t.text), t.text);
    }
  }

  // ----- dpp_configurator_params

  /** Exactly one secret, a key only of the right form, and a network that has a name. */
  predicate Acceptable(ssid: DppText, passphrase: Option<string>, psk: Option<string>) {
    && (passphrase.Some? <==> psk.None?)
    && (psk.Some? ==> |psk.value| == 64 && forall c | c in psk.value :: c in "0123456789abcdefABCDEF")
    && ssid != Characters("") && ssid != Raw([])
  }

  /** A call with no extra parameters succeeds exactly when it is acceptable, and is a ValueError otherwise. */
  lemma RefusedExactlyWhen(conf: string, ssid: DppText, passphrase: Option<string>, psk: Option<string>,
                           configurator: Option<string>, extra: seq<Param>)
    ensures var r := DppConfiguratorParams(conf, ssid, passphrase, psk, configurator, extra);
      && (r == Err(ValueError) <==> !Acceptable(ssid, passphrase, psk))
      && (extra == [] ==> (r.Ok? <==> Acceptable(ssid, passphrase, psk)))
      && (r.Err? ==> r.error == ValueError || r.error == TypeError)
  {
    if psk.Some? {
      RawPskIs(psk.value);
    }
    if extra == [] && DppHex(ssid).Ok? {
      var params := ConfiguratorParams(conf, DppHex(ssid).value, SecretParam(passphrase, psk), configurator, []);
      FourApart(params);
    }
  }

  lemma FourApart(params: seq<Param>)
    requires |params| == 4 && params[0].name == "conf" && params[1].name == "ssid"
    requires IsSecretName(params[2].name) && params[3].name == "configurator"
    ensures DistinctNames(params)
  {
  }

  /** The secret as it is sent: the hexdump of a passphrase that is not empty, or the key as given. */
  function SecretText(passphrase: Option<string>, psk: Option<string>): string {
    if passphrase.Some? && passphrase.value != "" then "pass=" + Hex(Utf8(passphrase.value))
    else if psk.Some? then "psk=" + psk.value
    else ""
  }

  function GivenText(name: string, value: Option<string>): string {
    if value.Some? then name + "=" + value.value else ""
  }

  lemma FormatGiven(name: string, value: Option<string>)
    requires name == "" || name[|name| - 1] != '_'
    ensures FormatParams([Param(name, value)]) == GivenText(name, value)
  {
    FormatOne(name, 0, if value.Some? then value.value else "");
    assert name + "" == name;
  }

  lemma FormatTwo(p: Param, q: Param)
    ensures FormatParams([p, q]) == Spaced(FormatParams([p]), FormatParams([q]))
  {
    FormatAppend([p], [q]);
    assert [p] + [q] == [p, q];
  }

  lemma FormatOwn(p: Param, q: Param, r: Param, s: Param, rest: seq<Param>)
    ensures FormatParams([p, q, r, s] + rest)
         == Spaced(Spaced(Spaced(FormatParams([p]), FormatParams([q])),
                          Spaced(FormatParams([r]), FormatParams([s]))), FormatParams(rest))
  {
    FormatAppend([p, q, r, s], rest);
    FormatAppend([p, q], [r, s]);
    assert [p, q] + [r, s] == [p, q, r, s];
    FormatTwo(p, q);
    FormatTwo(r, s);
  }

  lemma NamesEndClear(name: string)
    requires OwnName(name)
    ensures name[|name| - 1] != '_'
  {
  }

  lemma SecretTextIs(passphrase: Option<string>, psk: Option<string>)
    ensures var secret := SecretParam(passphrase, psk);
      OwnName(secret.name) && GivenText(secret.name, secret.value) == SecretText(passphrase, psk)
  {
  }

  lemma ParamsText(conf: string, hex: string, secret: Param, configurator: Option<string>, extra: seq<Param>)
    requires OwnName(secret.name)
    ensures FormatParams(ConfiguratorParams(conf, hex, secret, configurator, extra))
         == Spaced(Spaced(Spaced("conf=" + conf, "ssid=" + hex),
                          Spaced(GivenText(secret.name, secret.value), GivenText("configurator", configurator))),
                   FormatParams(extra))
  {
    FormatOwn(Param("conf", Some(conf)), Param("ssid", Some(hex)), secret, Param("configurator", configurator), extra);
    FormatOwnNames(conf, hex, configurator);
    FormatSecret(secret);
  }

  lemma FormatSecret(secret: Param)
    requires OwnName(secret.name)
    ensures FormatParams([secret]) == GivenText(secret.name, secret.value)
  {
    NamesEndClear(secret.name);
    FormatGiven(secret.name, secret.value);
  }

  /** The whole parameter string: the network, then the secret and the configurator that are given, then the
      extra parameters. */
  lemma ConfiguratorText(conf: string, ssid: DppText, passphrase: Option<string>, psk: Option<string>,
                         configurator: Option<string>, extra: seq<Param>)
    requires DppConfiguratorParams(conf, ssid, passphrase, psk, configurator, extra).Ok?
    ensures DppConfiguratorParams(conf, ssid, passphrase, psk, configurator, extra).value
         == Spaced(Spaced(Spaced("conf=" + conf, "ssid=" + Hex(OctetsOf(ssid))),
                          Spaced(SecretText(passphrase, psk), GivenText("configurator", configurator))),
                   FormatParams(extra))
  {
    SecretTextIs(passphrase, psk);
    ParamsText(conf, DppHex(ssid).value, SecretParam(passphrase, psk), configurator, extra);
  }

  lemma FormatOwnNames(conf: string, hex: string, configurator: Option<string>)
    ensures FormatParams([Param("conf", Some(conf))]) == "conf=" + conf
    ensures FormatParams([Param("ssid", Some(hex))]) == "ssid=" + hex
    ensures FormatParams([Param("configurator", configurator)]) == GivenText("configurator", configurator)
  {
    FormatGiven("conf", Some(conf));
    FormatGiven("ssid", Some(hex));
    FormatGiven("configurator", configurator);
  }
}
