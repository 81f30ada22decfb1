/**
  The `Parameters` class: the module's arguments, the gating of the
  install-only options on `state == 'installed'`, and the
  `tmsh load sys ucs` command built from them.
 */
module UcsParameters {
  import opened Wrappers
  import opened Text
  import opened Ordering

  datatype State = Present | Installed | Absent

  /** The module's arguments; an option the caller leaves out is `None`. */
  datatype Params = Params(
    ucs: string,
    state: State,
    force: bool,
    includeChassisLevelConfig: Option<bool>,
    noLicense: Option<bool>,
    noPlatformCheck: Option<bool>,
    passphrase: Option<string>,
    resetTrust: Option<bool>)

  /** The five install options. */
  datatype OptionName = IncludeChassisLevelConfig | NoLicense | NoPlatformCheck | Passphrase | ResetTrust

  /** A stored option value as Python holds it: None, a bool, or a str. */
  datatype OptValue = Unset | Flag(on: bool) | Secret(text: string)

  /** The name of the option's argument, which the gating error quotes. */
  function ParameterName(o: OptionName): string
  {
    match o
    case IncludeChassisLevelConfig => "include_chassis_level_config"
    case NoLicense => "no_license"
    case NoPlatformCheck => "no_platform_check"
    case Passphrase => "passphrase"
    case ResetTrust => "reset_trust"
  }

  /** The option's key in the `options` dict, which is also the word in the command. */
  function CommandKey(o: OptionName): string
  {
    match o
    case IncludeChassisLevelConfig => "include-chassis-level-config"
    case NoLicense => "no-license"
    case NoPlatformCheck => "no-platform-check"
    case Passphrase => "passphrase"
    case ResetTrust => "reset-trust"
  }

  function FromBool(b: Option<bool>): OptValue
  {
    match b
    case None => Unset
    case Some(on) => Flag(on)
  }

  /** `self._values[<option>]`. */
  function Stored(p: Params, o: OptionName): OptValue
  {
    match o
    case IncludeChassisLevelConfig => FromBool(p.includeChassisLevelConfig)
    case NoLicense => FromBool(p.noLicense)
    case NoPlatformCheck => FromBool(p.noPlatformCheck)
    case Passphrase => (match p.passphrase case None => Unset case Some(s) => Secret(s))
    case ResetTrust => FromBool(p.resetTrust)
  }

  function RequiresInstalledMessage(o: OptionName): string
  {
    "\"" + ParameterName(o) + "\" parameters requires \"installed\" state"
  }

  /** The option is set to exactly `True` while the state is not `installed`. */
  predicate Gated(p: Params, o: OptionName)
  {
    Stored(p, o) == Flag(true) && p.state != Installed
  }

  /** `_check_required_if`: a value other than `True` is returned as is; `True` outside `installed` raises. */
  function CheckRequiredIf(p: Params, o: OptionName): (r: Result<OptValue>)
    ensures r.Failure? <==> Gated(p, o)
    ensures r.Success? && Stored(p, o) != Flag(true) ==> r.value == Stored(p, o)
  {
    if Stored(p, o) != Flag(true) then Success(Stored(p, o))
    else if p.state != Installed then Failure(RequiresInstalledMessage(o))
    else Success(Unset)
  }

  /** The option's property accessor: the check, then the stored value. */
  function Accessor(p: Params, o: OptionName): (r: Result<OptValue>)
    ensures r.Failure? <==> Gated(p, o)
    ensures r.Failure? ==> r.error == RequiresInstalledMessage(o)
    ensures r.Success? ==> r.value == Stored(p, o)
  {
    var _ :- CheckRequiredIf(p, o);
    Success(Stored(p, o))
  }

  /** The order in which the `options` dict lists (and so reads) the accessors. */
  const DictOrder: seq<OptionName> := [IncludeChassisLevelConfig, NoLicense, NoPlatformCheck, Passphrase, ResetTrust]

  /** Some option is gated. */
  predicate GatedAny(p: Params)
  {
    Gated(p, IncludeChassisLevelConfig) || Gated(p, NoLicense) || Gated(p, NoPlatformCheck)
    || Gated(p, Passphrase) || Gated(p, ResetTrust)
  }

  /** Every option paired with its stored value, in dict order. */
  function StoredItems(p: Params): (items: seq<(OptionName, OptValue)>)
  {
    [(IncludeChassisLevelConfig, Stored(p, IncludeChassisLevelConfig)), (NoLicense, Stored(p, NoLicense)),
     (NoPlatformCheck, Stored(p, NoPlatformCheck)), (Passphrase, Stored(p, Passphrase)),
     (ResetTrust, Stored(p, ResetTrust))]
  }

  /** The `options` property: every accessor read in dict order, the first gated one raising. */
  function Options(p: Params): (r: Result<seq<(OptionName, OptValue)>>)
    ensures r.Failure? <==> GatedAny(p)
    ensures r.Success? ==> r.value == StoredItems(p)
  {
    var includeChassisLevelConfig :- Accessor(p, IncludeChassisLevelConfig);
    var noLicense :- Accessor(p, NoLicense);
    var noPlatformCheck :- Accessor(p, NoPlatformCheck);
    var passphrase :- Accessor(p, Passphrase);
    var resetTrust :- Accessor(p, ResetTrust);
    Success([(IncludeChassisLevelConfig, includeChassisLevelConfig), (NoLicense, noLicense),
             (NoPlatformCheck, noPlatformCheck), (Passphrase, passphrase), (ResetTrust, resetTrust)])
  }

  /** The error `options` raises names the first gated option in dict order. */
  lemma OptionsRaiseFirstGated(p: Params)
    requires Options(p).Failure?
    ensures exists k ::
              && 0 <= k < |DictOrder| && Gated(p, DictOrder[k])
              && Options(p).error == RequiresInstalledMessage(DictOrder[k])
              && forall j :: 0 <= j < k ==> !Gated(p, DictOrder[j])
  {
    if Gated(p, IncludeChassisLevelConfig) {
      assert Gated(p, DictOrder[0]);
    } else if Gated(p, NoLicense) {
      assert Gated(p, DictOrder[1]);
    } else if Gated(p, NoPlatformCheck) {
      assert Gated(p, DictOrder[2]);
    } else {
      assert Gated(p, DictOrder[4]);
    }
  }

  /** The dict's keys are already in `sorted` order, so sorting its items keeps the dict order. */
  lemma OptionKeysSorted()
    ensures StringLess(CommandKey(IncludeChassisLevelConfig), CommandKey(NoLicense))
    ensures StringLess(CommandKey(NoLicense), CommandKey(NoPlatformCheck))
    ensures StringLess(CommandKey(NoPlatformCheck), CommandKey(Passphrase))
    ensures StringLess(CommandKey(Passphrase), CommandKey(ResetTrust))
  {
    SeqLessAt(Codes("include-chassis-level-config"), Codes("no-license"), 0);
    var a, b := Codes("no-license"), Codes("no-platform-check");
    assert a[..3] == ['n' as int, 'o' as int, '-' as int] == b[..3];
    SeqLessAt(a, b, 3);
    SeqLessAt(Codes("no-platform-check"), Codes("passphrase"), 0);
    SeqLessAt(Codes("passphrase"), Codes("reset-trust"), 0);
  }

  /** Python's `'%s' % v`. */
  function PyStr(v: OptValue): string
  {
    match v
    case Unset => "None"
    case Flag(on) => if on then "True" else "False"
    case Secret(s) => s
  }

  /** What one loop iteration of `install_command` appends for an option. */
  function RenderOption(item: (OptionName, OptValue)): string
  {
    var (o, v) := item;
    if v == Unset || v == Flag(false) then ""
    else if o == Passphrase then " " + CommandKey(o) + " " + PyStr(v)
    else " " + CommandKey(o)
  }

  /** What the loop has appended after visiting `items`. */
  function RenderOptions(items: seq<(OptionName, OptValue)>): string
  {
    if items == [] then ""
    else RenderOptions(items[..|items| - 1]) + RenderOption(items[|items| - 1])
  }

  const InstallPrefix := "tmsh load sys ucs /var/local/ucs/"

  /** The `install_command` property. */
  function InstallCommandOf(p: Params): (r: Result<string>)
    ensures r.Failure? <==> GatedAny(p)
  {
    var items :- Options(p);
    Success(InstallPrefix + Basename(p.ucs) + RenderOptions(items))
  }

  /** `install_command`: the prefix and basename, then each set option in sorted order. */
  method InstallCommand(p: Params) returns (r: Result<string>)
    ensures r == InstallCommandOf(p)
  {
    var cmd := InstallPrefix + Basename(p.ucs);
    var options := Options(p);
    if options.Failure? {
      return Failure(options.error);
    }
    cmd := AppendOptions(cmd, options.value);
    r := Success(cmd);
  }

  /** The loop of `install_command` over the sorted option items. */
  method AppendOptions(start: string, items: seq<(OptionName, OptValue)>) returns (cmd: string)
    ensures cmd == start + RenderOptions(items)
  {
    cmd := start;
    var i := 0;
    while i < |items|
      invariant 0 <= i <= |items|
      invariant cmd == start + RenderOptions(items[..i])
    {
      var k, v := items[i].0, items[i].1;
      var piece := "";
      if v == Unset || v == Flag(false) {
      } else if k == Passphrase {
        piece := " " + CommandKey(k) + " " + PyStr(v);
      } else {
        piece := " " + CommandKey(k);
      }
      RenderSnoc(start, items, i, piece);
      cmd := cmd + piece;
      i := i + 1;
    }
    assert items[..|items|] == items;
  }

  /** One more item renders as one more piece. */
  lemma RenderSnoc(start: string, items: seq<(OptionName, OptValue)>, i: nat, piece: string)
    requires i < |items| && piece == RenderOption(items[i])
    ensures start + RenderOptions(items[..i + 1]) == start + RenderOptions(items[..i]) + piece
  {
    assert items[..i + 1][..i] == items[..i];
    ConcatAssoc(start, RenderOptions(items[..i]), piece);
  }

  /** The word a boolean option contributes: its key when it is exactly true. */
  function FlagText(b: Option<bool>, key: string): string
  {
    if b == Some(true) then " " + key else ""
  }

  /** What a passphrase contributes: the key and the text when one is given. */
  function PassphraseText(s: Option<string>): string
  {
    if s.Some? then " passphrase " + s.value else ""
  }

  /** The command spelled out option by option. */
  lemma InstallCommandSpelledOut(p: Params)
    requires InstallCommandOf(p).Success?
    ensures InstallCommandOf(p).value
      == InstallPrefix + Basename(p.ucs)
         + FlagText(p.includeChassisLevelConfig, "include-chassis-level-config")
         + FlagText(p.noLicense, "no-license")
         + FlagText(p.noPlatformCheck, "no-platform-check")
         + PassphraseText(p.passphrase)
         + FlagText(p.resetTrust, "reset-trust")
  {
    var a := InstallPrefix + Basename(p.ucs);
    assert InstallCommandOf(p).value == a + RenderOptions(StoredItems(p));
    RenderStoredItems(p);
    RegroupFive(a, FlagText(p.includeChassisLevelConfig, "include-chassis-level-config"),
                FlagText(p.noLicense, "no-license"), FlagText(p.noPlatformCheck, "no-platform-check"),
                PassphraseText(p.passphrase), FlagText(p.resetTrust, "reset-trust"));
  }

  /** The options of `p` render option by option. */
  lemma RenderStoredItems(p: Params)
    ensures RenderOptions(StoredItems(p))
         == FlagText(p.includeChassisLevelConfig, "include-chassis-level-config")
            + FlagText(p.noLicense, "no-license")
            + FlagText(p.noPlatformCheck, "no-platform-check")
            + PassphraseText(p.passphrase)
            + FlagText(p.resetTrust, "reset-trust")
  {
    var items := StoredItems(p);
    RenderFive(items);
    RenderFlag(IncludeChassisLevelConfig, p.includeChassisLevelConfig);
    RenderFlag(NoLicense, p.noLicense);
    RenderFlag(NoPlatformCheck, p.noPlatformCheck);
    RenderFlag(ResetTrust, p.resetTrust);
    RenderPassphrase(p.passphrase);
  }

  /** A boolean option renders as its key exactly when it is true. */
  lemma RenderFlag(o: OptionName, b: Option<bool>)
    requires o != Passphrase
    ensures RenderOption((o, FromBool(b))) == FlagText(b, CommandKey(o))
  {
  }

  /** A passphrase renders as the key and the text whenever it is given. */
  lemma RenderPassphrase(s: Option<string>)
    ensures RenderOption((Passphrase, match s case None => Unset case Some(t) => Secret(t))) == PassphraseText(s)
  {
    if s.Some? {
      assert " " + CommandKey(Passphrase) + " " == " passphrase ";
    }
  }

  /** Five items render as the five renderings in a row. */
  lemma RenderFive(items: seq<(OptionName, OptValue)>)
    requires |items| == 5
    ensures RenderOptions(items)
         == RenderOption(items[0]) + RenderOption(items[1]) + RenderOption(items[2])
            + RenderOption(items[3]) + RenderOption(items[4])
  {
    assert RenderOptions(items[..1]) == RenderOption(items[0]) by {
      assert items[..1][..0] == [];
    }
    assert RenderOptions(items[..2]) == RenderOptions(items[..1]) + RenderOption(items[1]) by {
      assert items[..2][..1] == items[..1];
    }
    assert RenderOptions(items[..3]) == RenderOptions(items[..2]) + RenderOption(items[2]) by {
      assert items[..3][..2] == items[..2];
    }
    assert RenderOptions(items[..4]) == RenderOptions(items[..3]) + RenderOption(items[3]) by {
      assert items[..4][..3] == items[..3];
    }
  }

  lemma RegroupFive(a: string, r0: string, r1: string, r2: string, r3: string, r4: string)
    ensures a + (r0 + r1 + r2 + r3 + r4) == a + r0 + r1 + r2 + r3 + r4
  {
    ConcatAssoc(a, r0 + r1 + r2 + r3, r4);
    ConcatAssoc(a, r0 + r1 + r2, r3);
    ConcatAssoc(a, r0 + r1, r2);
    ConcatAssoc(a, r0, r1);
  }

  /** Building the command fails exactly when a boolean option is true outside `installed`. */
  lemma InstallCommandFailsIff(p: Params)
    ensures InstallCommandOf(p).Failure?
        <==> p.state != Installed
             && (p.includeChassisLevelConfig == Some(true) || p.noLicense == Some(true)
                 || p.noPlatformCheck == Some(true) || p.resetTrust == Some(true))
  {
    OptionsFailIff(p);
    assert InstallCommandOf(p).Failure? <==> Options(p).Failure?;
  }

  lemma OptionsFailIff(p: Params)
    ensures Options(p).Failure?
        <==> (p.state != Installed
              && (p.includeChassisLevelConfig == Some(true) || p.noLicense == Some(true)
                  || p.noPlatformCheck == Some(true) || p.resetTrust == Some(true)))
  {
  }

  /** A passphrase, set or not, never fails the gate. */
  lemma PassphraseNeverGated(p: Params)
    ensures Accessor(p, Passphrase) == Success(Stored(p, Passphrase))
  {
  }

  /** In state `installed` the command is always built. */
  lemma InstalledAlwaysBuilds(p: Params)
    requires p.state == Installed
    ensures InstallCommandOf(p).Success?
  {
  }

  lemma ExampleBasename(path: string)
    requires path == "/tmp/x.ucs"
    ensures Basename(path) == "x.ucs"
  {
    assert path[..9] == "/tmp/x.uc";
    assert path[..9][..8] == "/tmp/x.u";
    assert path[..9][..8][..7] == "/tmp/x.";
    assert path[..9][..8][..7][..6] == "/tmp/x";
    assert path[..9][..8][..7][..6][..5] == "/tmp/";
  }

  /** no-license before passphrase, a false reset-trust left out, no `--` before the keys. */
  lemma InstallCommandExample(p: Params)
    requires p == Params("/tmp/x.ucs", Installed, false, None, Some(true), None, Some("abc"), Some(false))
    ensures InstallCommandOf(p) == Success(InstallPrefix + "x.ucs" + " no-license" + " passphrase abc")
  {
    ExampleBasename(p.ucs);
    InstalledAlwaysBuilds(p);
    InstallCommandSpelledOut(p);
    var command := InstallCommandOf(p).value;
    assert command == InstallPrefix + "x.ucs" + "" + " no-license" + "" + " passphrase abc" + "" by {
      assert FlagText(p.includeChassisLevelConfig, "include-chassis-level-config") == "";
      assert FlagText(p.noLicense, "no-license") == " no-license";
      assert FlagText(p.noPlatformCheck, "no-platform-check") == "";
      assert PassphraseText(p.passphrase) == " passphrase abc";
      assert FlagText(p.resetTrust, "reset-trust") == "";
    }
    DropEmpty(InstallPrefix + "x.ucs", " no-license", " passphrase abc");
  }

  lemma DropEmpty(a: string, b: string, c: string)
    ensures a + "" + b + "" + c + "" == a + b + c
  {
  }

}
