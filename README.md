# bigip_ucs in Dafny

A model of the decision logic of the Ansible module `bigip_ucs`. The module
uploads, installs (loads) and deletes UCS configuration archives on an F5
BIG-IP. The model covers these parts:

- **`Parameters`** (module `UcsParameters`):
  - the basename of the `ucs` path;
  - the gate that lets the five install options be `True` only in state `installed`;
  - the `options` dict;
  - the `tmsh load sys ucs` command. Its loop over the sorted options is a method, proved against a function.
- **Version dispatch** (module `Version`): `is_version_v1`, a `LooseVersion` comparison with 12.1.0 over numeric version lists, and the choice of V1 or V2 manager.
- **The lifecycle** (module `Lifecycle`): `present`, `update`, `create`, `absent`, `remove`, `install_on_device` and `exec_module`, written as functions.
  - They act on an abstract device: the set of UCS files it holds, plus the log of the changes sent to it.
  - The device's answers are fixed in advance by an `Env` value: whether an upload or delete takes effect, the errors raised, the reconnect results and the `mcp-state` probes. The two listings are not in `Env`: the `Device` class computes them from its file set.
- **The manager classes** (module `Managers`):
  - `ModuleManager`;
  - `UcsManager`, which is `BaseManager` together with the `V1Manager` and `V2Manager` overrides, picked by a `tier` field;
  - a `Device` class standing in for the SDK client.

  Every method that changes the device is proved to end exactly as the matching `Lifecycle` step function says (`Create` as `CreateStep`, `InstallOnDevice` as `InstallStep`, and so on).
- **The two waits**:
  - `wait_for_rest_api_restart`: a bounded `for` loop with `break`.
  - `wait_for_configuration_reload`: a `while` loop over the `noops` debounce counter. It is proved against a characterization of its outcome without the loop (module `ReloadWatcher`), and that outcome is proved to be unique.
- **Reading the device's answers** (module `Responses`, with the string operations in `Text`):
  - the V1 `tmsh list sys ucs` listing (split, strip, set);
  - the V2 item filenames (basename);
  - the `<basename> is deleted` confirmation;
  - the allow-list of load errors (`Connection aborted`, `TimeoutException`);
  - the three `mcp-state` patterns of the form "phrase, one or more whitespace characters, word".

  The regular expressions are modelled as exactly that search, not as a general regex engine.

Two facts about the code shape the model:

- The install command emits bare option keys (`no-license`, `passphrase abc`), with no `--` prefix.
- An option is gated only when its stored value is exactly `True` (`is not True`), so a passphrase string is never gated.

The module's own documentation and its code disagree on one point: `passphrase` is documented as `type: bool` (library/bigip_ucs.py:57-60), but the argument spec takes it as a string (library/bigip_ucs.py:586), and the install command appends its text. The model follows the code: a passphrase is a string.

## Model

| member | source | states |
|---|---|---|
| Text.Basename | library/bigip_ucs.py:229-231 | the result is the suffix of the path after its last '/', contains no '/', and is the whole path when there is no '/' |
| Text.Strip | library/bigip_ucs.py:502-503 | the result is the input with surrounding whitespace removed: neither end is whitespace, and a string already clean is returned unchanged |
| Text.Split | library/bigip_ucs.py:502 | at least one piece, no piece contains the separator, and the pieces joined by the separator give the input back |
| Text.SplitJoin | library/bigip_ucs.py:502 | splitting a join of separator-free pieces gives the pieces back |
| Text.Contains | library/bigip_ucs.py:519 | `part in s` holds iff `part` occurs at some index of `s` |
| Text.SearchPattern | library/bigip_ucs.py:442-461 | the search succeeds iff at some index the phrase is followed by one or more whitespace characters and then the word |
| Ordering.SeqLessTransitive | library/bigip_ucs.py:324 | the list order `LooseVersion` compares by is transitive |
| Ordering.SeqLessTotal | library/bigip_ucs.py:324 | any two distinct version lists are ordered one way or the other |
| Version.IsVersionV1 | library/bigip_ucs.py:313-327 | V1 iff the version is below [12, 1, 0] in list order, spelled out as a closed condition on the first components |
| Version.SelectTier | library/bigip_ucs.py:305-311 | V1 is picked iff the version is below 12.1.0 |
| Version.DispatchBoundaries | library/bigip_ucs.py:313-327 | 11.9.9, 12.0.0 and 12.1 give V1; 12.1.0, 12.1.0.1 and 13.0.0 give V2 |
| Version.V1DownwardClosed | library/bigip_ucs.py:313-327 | a version older than a V1 version is V1 |
| Version.V2UpwardClosed | library/bigip_ucs.py:313-327 | a version newer than a V2 version is V2 |
| UcsParameters.CheckRequiredIf | library/bigip_ucs.py:221-227 | fails iff the stored value is exactly True and the state is not installed; any other value is returned unchanged |
| UcsParameters.Accessor | library/bigip_ucs.py:243-266 | each option's property fails iff it is gated, with the message `"<name>" parameters requires "installed" state`, and otherwise returns the stored value |
| UcsParameters.PassphraseNeverGated | library/bigip_ucs.py:248-251 | the passphrase accessor always returns the stored passphrase |
| UcsParameters.Options | library/bigip_ucs.py:233-241 | fails iff some option is gated, and otherwise yields every option paired with its stored value |
| UcsParameters.OptionsRaiseFirstGated | library/bigip_ucs.py:233-241 | the error raised names the first gated option in dict order |
| UcsParameters.OptionKeysSorted | library/bigip_ucs.py:272 | the five keys are strictly increasing as Python compares strings, so sorting the items keeps dict order |
| UcsParameters.AppendOptions | library/bigip_ucs.py:273-279 | the loop appends, for each item in order, nothing for None/False, ` passphrase <value>` for the passphrase and ` <key>` otherwise |
| UcsParameters.InstallCommandOf | library/bigip_ucs.py:268-280 | building the command fails iff some option's accessor raises, that is iff some option is gated |
| UcsParameters.InstallCommand | library/bigip_ucs.py:268-280 | the method's result is the command the `install_command` function specifies, including its failure |
| UcsParameters.InstallCommandSpelledOut | library/bigip_ucs.py:268-280 | a built command is the prefix `tmsh load sys ucs /var/local/ucs/`, the basename, then each true flag and a given passphrase in sorted key order |
| UcsParameters.InstallCommandFailsIff | library/bigip_ucs.py:221-280 | building the command fails iff some boolean option is True outside state installed |
| UcsParameters.InstalledAlwaysBuilds | library/bigip_ucs.py:221-227 | in state installed the command is always built |
| UcsParameters.InstallCommandExample | library/bigip_ucs.py:268-280 | with no-license true, passphrase abc and reset-trust false, the command is exactly the prefix `tmsh load sys ucs /var/local/ucs/` followed by `x.ucs no-license passphrase abc` |
| ReloadWatcher.IsReloadSucceeded | library/bigip_ucs.py:442-447 | true iff `Last Configuration Load Status`, whitespace, `full-config-load-succeed` occurs |
| ReloadWatcher.IsReloadRunning | library/bigip_ucs.py:449-454 | true iff `Running Phase`, whitespace, `running` occurs |
| ReloadWatcher.IsReloadFailed | library/bigip_ucs.py:456-461 | true iff `Last Configuration Load Status`, whitespace, `base-config-load-failed` occurs |
| ReloadWatcher.PatternInside | library/bigip_ucs.py:442-461 | a phrase, a whitespace run and the word side by side anywhere in the output are found |
| ReloadWatcher.ReloadFailureMessage | library/bigip_ucs.py:431-435 | the raised message ends with the raw output |
| ReloadWatcher.ReloadFrom | library/bigip_ucs.py:412-440 | the `noops` loop from probe `i` on: a settled wait ends after probe `i` and within the probes, and a failure is raised at a probe from `i` on |
| ReloadWatcher.ReloadFromOutcome | library/bigip_ucs.py:412-440 | the recursive rendering of the loop meets the characterization: four settled probes in a row (transient ones skipped) with no failure before, or the first failure, or the probes running out |
| ReloadWatcher.ReloadResult | library/bigip_ucs.py:412-440 | the wait from a zero counter meets the characterization |
| ReloadWatcher.ReloadOutcomeUnique | library/bigip_ucs.py:412-440 | at most one outcome meets the characterization |
| ReloadWatcher.WaitStep | library/bigip_ucs.py:418-440 | one probe that is not fatal advances the counter as the streak of settled probes says |
| ReloadWatcher.WaitFails | library/bigip_ucs.py:428-433 | a fatal probe reached with the counter below four is the characterized failure |
| ReloadWatcher.FailureCheckedFirst | library/bigip_ucs.py:428-440 | an output reporting both a failed load and success with the running phase raises |
| ReloadWatcher.TransientProbesSkipped | library/bigip_ucs.py:418-426 | failed calls and responses without a result between settled probes do not reset the counter |
| ReloadWatcher.OtherOutputResets | library/bigip_ucs.py:434-440 | any other output, including success without the running phase, resets the counter to 0 |
| ReloadWatcher.FourAfterReset | library/bigip_ucs.py:412-440 | after a reset, four more settled probes end the wait |
| Responses.StripAll | library/bigip_ucs.py:502-504 | the set holds exactly the stripped lines |
| Responses.ReadCurrentV1 | library/bigip_ucs.py:495-505 | a name is collected iff the response has a `commandResult` and some line of it, stripped, equals the name |
| Responses.ExistsV1 | library/bigip_ucs.py:507-511 | V1 `exists` holds iff some stripped line of the listing is the basename |
| Responses.ReadCurrentV2 | library/bigip_ucs.py:554-560 | one name per item, the basename of its filename, in order; no items gives nothing |
| Responses.ExistsV2 | library/bigip_ucs.py:562-566 | V2 `exists` holds iff some item's filename has the basename |
| Responses.RemoveConfirmed | library/bigip_ucs.py:513-521 | confirmed iff a `commandResult` is present and `<basename> is deleted` occurs in it |
| Responses.ConfirmedBySuffix | library/bigip_ucs.py:519 | the test is a substring test: any text around the phrase still confirms |
| Responses.IsBenignInstallError | library/bigip_ucs.py:530-539 | an error is let through iff its message contains `Connection aborted` or `TimeoutException` |
| Responses.AbortIsBenign | library/bigip_ucs.py:530-537 | an abort or a timeout anywhere in the message is let through |
| Responses.ListingV1 | library/bigip_ucs.py:495-511 | on a listing of the device's files one per line, V1 finds a name iff the device holds it, or the device holds no file and the name is empty |
| Responses.ListingV2 | library/bigip_ucs.py:554-566 | on items with the device's files under /var/local/ucs/, V2 finds a name iff the device holds it |
| Responses.BasenameUnder | library/bigip_ucs.py:229-231 | the basename of a file under a directory ending in '/' is the file's own name |
| Lifecycle.AfterLoad | library/bigip_ucs.py:538-541 | after the load, changed (True) iff the reload wait ends with four settled probes, raised iff it ends with a failure, with the reload-failure message carrying the probe's raw output; the device is untouched |
| Lifecycle.InstallStep | library/bigip_ucs.py:523-541 | `install_on_device` never changes the file set and never returns False; it returns True only when the reload wait settles |
| Lifecycle.CreateStep | library/bigip_ucs.py:374-382 | `create` never returns False, leaves the device alone in check mode, and outside check mode returns True only when the file exists afterwards |
| Lifecycle.RemoveStep | library/bigip_ucs.py:395-401 | `remove` returns True or raises "Failed to delete the UCS file", leaves the device alone in check mode, and outside check mode returns True only when the file is gone afterwards |
| Lifecycle.UpdateStep | library/bigip_ucs.py:361-372 | `update` leaves the device alone in check mode and whenever it returns False |
| Lifecycle.PresentStep | library/bigip_ucs.py:355-359 | `present` leaves the device alone in check mode and whenever it returns False |
| Lifecycle.AbsentStep | library/bigip_ucs.py:384-387 | `absent` leaves the device alone in check mode, and returns False only when the file is missing, without touching the device |
| Lifecycle.RunStep | library/bigip_ucs.py:337-353 | `exec_module` leaves the device alone in check mode and whenever it reports no change |
| Lifecycle.Exists | library/bigip_ucs.py:495-566 | `exists()` in the run's dialect: a held basename is always found; a basename is found iff the device holds it whenever it is non-empty or the dialect is V2 |
| Lifecycle.Uploaded | library/bigip_ucs.py:476-493 | the upload logs itself and adds at most the basename to the files |
| Lifecycle.Deleted | library/bigip_ucs.py:513-517 | the delete logs itself and removes at most the basename |
| Lifecycle.Loaded | library/bigip_ucs.py:525-528 | sending the load command logs it and leaves the file set alone |
| Lifecycle.ModuleStep | library/bigip_ucs.py:305-311 | a module run is the V1 manager run when the version is below 12.1.0 in list order, and the V2 run otherwise |
| Lifecycle.LoadOnlyWhenInstalled | library/bigip_ucs.py:361-382 | a run only appends to the device's log, and every load it appends is the install command in state installed |
| Lifecycle.CheckModeReadOnly | library/bigip_ucs.py:361-401 | in check mode the device is unchanged; create and remove report True, update reports exactly `force` |
| Lifecycle.AbsentOnMissing | library/bigip_ucs.py:384-387 | `absent` on a missing file returns False and sends nothing |
| Lifecycle.PresentOnExisting | library/bigip_ucs.py:355-372 | `present` on an existing file without force returns False and changes nothing |
| Lifecycle.PresentTwice | library/bigip_ucs.py:355-382 | after a successful `present`, the file is found and a second `present` returns False and changes nothing |
| Lifecycle.ChangedMeansVerified | library/bigip_ucs.py:374-401 | outside check mode a reported change was checked on the device: the file exists afterwards, or is gone for `absent` |
| Lifecycle.UnchangedMeansUntouched | library/bigip_ucs.py:337-401 | a run that reports False leaves the device as it found it |
| Lifecycle.CreateNeverUnchanged | library/bigip_ucs.py:374-382 | `create` never returns False |
| Lifecycle.UploadWithoutEffectRaises | library/bigip_ucs.py:374-380 | an upload that leaves no file behind raises "Failed to upload the UCS file" |
| Lifecycle.DeleteWithoutEffectRaises | library/bigip_ucs.py:395-401 | a delete that leaves the file behind raises "Failed to delete the UCS file" |
| Lifecycle.ForceRecreates | library/bigip_ucs.py:361-368 | `force` on an existing file deletes it, uploads it again and returns True |
| Lifecycle.InstalledReloadsEveryRun | library/bigip_ucs.py:361-372 | state installed on an existing file sends the load on every run |
| Lifecycle.InstallErrorHandling | library/bigip_ucs.py:523-541 | an allowed load error goes on to the waits; any other is raised with its own message |
| Lifecycle.TiersAgree | library/bigip_ucs.py:495-566 | on a device holding only `ValidUcsName` files (every device the model builds), V1 and V2 runs end alike for a non-empty basename |
| Lifecycle.EmptyBasenameOnV1 | library/bigip_ucs.py:495-511 | on V1 an empty basename is "found" on a device with no UCS file, so `absent` tries a delete and raises; this rests on the assumed listing format, in which an empty device answers an empty `commandResult` rather than none |
| Lifecycle.RunKeepsValidFiles | library/bigip_ucs.py:337-401 | a run keeps every file on the device listable |
| Managers.UcsManager.Exists | library/bigip_ucs.py:495-566 | `exists` in the manager's dialect reads the device's listing and agrees with the file set |
| Managers.UcsManager.CreateOnDevice | library/bigip_ucs.py:476-493 | an IOError from the upload is returned; otherwise the device is uploaded to |
| Managers.UcsManager.RemoveFromDevice | library/bigip_ucs.py:513-521 | sends the delete and returns whether its output confirms it |
| Managers.UcsManager.WaitForRestApiRestart | library/bigip_ucs.py:403-410 | 1 to 60 attempts, all but the last failing, stopping at the first success, 60 when none succeeds, never raising |
| Managers.UcsManager.WaitForConfigurationReload | library/bigip_ucs.py:412-440 | the `noops` loop ends with the characterized outcome of the probes |
| Managers.UcsManager.InstallOnDevice | library/bigip_ucs.py:523-541 | the load, the error allow-list and the two waits leave the files alone and end as `install_on_device` specifies |
| Managers.UcsManager.Create | library/bigip_ucs.py:374-382 | ends as `create` specifies and keeps the files listable |
| Managers.UcsManager.Remove | library/bigip_ucs.py:395-401 | ends as `remove` specifies and keeps the files listable |
| Managers.UcsManager.Update | library/bigip_ucs.py:361-372 | ends as `update` specifies and keeps the files listable |
| Managers.UcsManager.Present | library/bigip_ucs.py:355-359 | ends as `present` specifies and keeps the files listable |
| Managers.UcsManager.Absent | library/bigip_ucs.py:384-387 | ends as `absent` specifies and keeps the files listable |
| Managers.UcsManager.ExecModule | library/bigip_ucs.py:337-353 | `present` for present/installed, `absent` otherwise, ending as the run specifies |
| Managers.ModuleManager.ExecModule | library/bigip_ucs.py:300-311 | builds the manager for the dialect the version selects and ends as the module run specifies |

## Left out

- The F5 SDK calls (`exec_cmd`, `upload_file`, `unix_mv`, `sys.ucs.load`, `reconnect`) are network I/O. The `Device` class stands in for them: the two listings (`tmsh list sys ucs`, `sys.ucs.load`) are computed from its file set, and every other answer is a field of `Env`.
- `time.sleep`: it affects only timing.
- `ArgumentSpec`, `main`, `AnsibleModule`, `fail_json`/`exit_json`, `cleanup_tokens`: these are argument parsing and process plumbing.
- `to_return` and `api_params` always yield `{}`, because `returnables` and `api_attributes` are empty. The result dict is therefore modelled as its `changed` flag (`Outcome.Changed`).
- `should_update` is dead code: it calls a method that does not exist.
- The wrapping of `iControlUnexpectedHTTPError` into `F5ModuleError` in `exec_module` is left out. The model does not raise SDK HTTP errors, because device answers are given as values.
- A V2 item without `apiRawValues.filename` (a `KeyError`) is not modelled: items are given as their filenames.
- `LooseVersion` on non-numeric components is left out. Versions are lists of naturals, compared the way Python compares lists.
- A general regex engine: the three patterns are searched for as "phrase, one or more whitespace, word".
- The `DOCUMENTATION` and `EXAMPLES` strings.
- Whitespace follows Python 3 `str` semantics: `strip()` and the `\s` of the three patterns use the full Unicode whitespace set (`Text.IsSpace`). Under Python 2, which the module also supports, both cover only ASCII whitespace on byte strings.
- Managers.UcsManager.WaitForConfigurationReload: the source polls forever when the device never settles. The model consumes a finite sequence of probes and returns `StillWaiting` when they run out. This is an end of the observations, not a timeout.
- Managers.UcsManager.Exists: the device's listings are modelled in one assumed format:
  - the V1 `tmsh list sys ucs` output is one file name per line;
  - each V2 item's filename is the file's path under /var/local/ucs/.

  Device file names are restricted to names that survive that format (`ValidUcsName`: non-empty, no '/', no newline, no surrounding whitespace).
- Lifecycle.TiersAgree: the V1 and V2 `exists` differ on a file whose name has leading or trailing whitespace. V1 strips each listing line but compares the basename unstripped, so it never finds such a name; V2 takes the basename of the filename unstripped, so it does. The model cannot show this difference: its devices hold only `ValidUcsName` files, so such a file is never uploaded and never listed.
- Managers.UcsManager.WaitForRestApiRestart: only the attempt count and the success of the last attempt are modelled. The exception type a failed reconnect raises is not.
- Managers.UcsManager.CreateOnDevice: the `unix_mv` command's own result is not modelled. Whether the moved file appears is an `Env` flag, which `create`'s post-check then reads.
