/**
  How the managers read the device's answers: the V1 and V2 UCS listings,
  the confirmation of a delete, and the errors a UCS load may raise that
  the module lets pass.
 */
module Responses {
  import opened Wrappers
  import opened Text
  import opened Version

  const Newline := '\n'

  /** Some line of the V1 listing `text`, stripped, is `name`. */
  predicate ListsName(text: string, name: string)
  {
    var lines := Split(text, Newline);
    exists k :: 0 <= k < |lines| && Strip(lines[k]) == name
  }

  /**
    `V1Manager.read_current_from_device`: the stripped lines of the
    `tmsh list sys ucs` output, as a set; nothing when the response has no
    `commandResult`.
   */
  method ReadCurrentV1(commandResult: Option<string>) returns (collection: set<string>)
    ensures forall name :: name in collection <==> commandResult.Some? && ListsName(commandResult.value, name)
  {
    collection := {};
    if commandResult.Some? {
      collection := StripAll(Split(commandResult.value, Newline));
    }
  }

  /** `set(x.strip() for x in lines)`. */
  method StripAll(lines: seq<string>) returns (collection: set<string>)
    ensures forall name :: name in collection <==> exists k :: 0 <= k < |lines| && Strip(lines[k]) == name
  {
    collection := {};
    var i := 0;
    while i < |lines|
      invariant 0 <= i <= |lines|
      invariant forall name :: name in collection <==> exists k :: 0 <= k < i && Strip(lines[k]) == name
    {
      collection := collection + {Strip(lines[i])};
      i := i + 1;
    }
  }

  /** `V1Manager.exists`: the basename is one of the listed lines. */
  method ExistsV1(commandResult: Option<string>, basename: string) returns (found: bool)
    ensures found <==> commandResult.Some? && ListsName(commandResult.value, basename)
  {
    var collection := ReadCurrentV1(commandResult);
    found := basename in collection;
  }

  /**
    `V2Manager.read_current_from_device`: the basename of each item's
    `apiRawValues.filename`; a response without `items` lists nothing.
   */
  method ReadCurrentV2(items: Option<seq<string>>) returns (names: seq<string>)
    ensures items.None? ==> names == []
    ensures items.Some? ==> |names| == |items.value|
    ensures items.Some? ==> forall k :: 0 <= k < |names| ==> names[k] == Basename(items.value[k])
  {
    names := [];
    if items.Some? {
      var filenames := items.value;
      var i := 0;
      while i < |filenames|
        invariant 0 <= i <= |filenames|
        invariant |names| == i
        invariant forall k :: 0 <= k < i ==> names[k] == Basename(filenames[k])
      {
        names := names + [Basename(filenames[i])];
        i := i + 1;
      }
    }
  }

  /** `V2Manager.exists`: some item's filename has the basename. */
  method ExistsV2(items: Option<seq<string>>, basename: string) returns (found: bool)
    ensures found <==> items.Some? && exists k :: 0 <= k < |items.value| && Basename(items.value[k]) == basename
  {
    var collection := ReadCurrentV2(items);
    found := basename in collection;
    assert found ==> exists k :: 0 <= k < |collection| && collection[k] == basename;
  }

  /** `remove_from_device`'s verdict: the response contains `<basename> is deleted`. */
  function RemoveConfirmed(commandResult: Option<string>, basename: string): (confirmed: bool)
    ensures confirmed <==> commandResult.Some? && exists i: nat :: OccursAt(commandResult.value, basename + " is deleted", i)
  {
    commandResult.Some? && Contains(commandResult.value, basename + " is deleted")
  }

  /** The confirmation is a substring test, so another file's report can confirm the delete. */
  lemma ConfirmedBySuffix(pre: string, basename: string, post: string)
    ensures RemoveConfirmed(Some(pre + basename + " is deleted" + post), basename)
  {
    var s := pre + basename + " is deleted" + post;
    var part := basename + " is deleted";
    assert s == pre + part + post;
    assert s[|pre|..|pre| + |part|] == part;
    assert OccursAt(s, part, |pre|);
  }

  const ConnectionAborted := "Connection aborted"
  const TimeoutException := "TimeoutException"

  /** An error from the load command that `install_on_device` swallows. */
  function IsBenignInstallError(message: string): (benign: bool)
    ensures benign <==> (exists i: nat :: OccursAt(message, ConnectionAborted, i))
                        || (exists i: nat :: OccursAt(message, TimeoutException, i))
  {
    Contains(message, ConnectionAborted) || Contains(message, TimeoutException)
  }

  /** Whatever else the message says, a restjavad abort or a timeout is swallowed. */
  lemma AbortIsBenign(pre: string, post: string)
    ensures IsBenignInstallError(pre + ConnectionAborted + post)
    ensures IsBenignInstallError(pre + TimeoutException + post)
  {
    var a := pre + ConnectionAborted + post;
    assert a[|pre|..|pre| + |ConnectionAborted|] == ConnectionAborted;
    assert OccursAt(a, ConnectionAborted, |pre|);
    var t := pre + TimeoutException + post;
    assert t[|pre|..|pre| + |TimeoutException|] == TimeoutException;
    assert OccursAt(t, TimeoutException, |pre|);
  }

  /** A file name the device stores and lists: non-empty, no '/', no newline, no surrounding whitespace. */
  predicate ValidUcsName(name: string)
  {
    name != [] && '/' !in name && Newline !in name && !IsSpace(name[0]) && !IsSpace(name[|name| - 1])
  }

  const UcsDirectory := "/var/local/ucs/"

  /**
    What `exists` answers for `name` on a device that holds `files`. A V1
    device with no UCS file answers an empty listing, whose one stripped
    line is the empty string.
   */
  predicate ReportsPresent(tier: Tier, files: set<string>, name: string)
  {
    name in files || (tier == V1 && files == {} && name == [])
  }

  /** The V1 listing of valid names, one per line, lists exactly those names (or the empty line). */
  lemma {:induction false} ListingV1(names: seq<string>, files: set<string>, name: string)
    requires forall k :: 0 <= k < |names| ==> ValidUcsName(names[k])
    requires forall x :: x in files <==> x in names
    ensures ListsName(Join(names, Newline), name) <==> ReportsPresent(V1, files, name)
  {
    if names == [] {
      assert Split([], Newline) == [[]];
      assert Strip([]) == [];
    } else {
      SplitJoin(names, Newline);
      forall k | 0 <= k < |names|
        ensures Strip(names[k]) == names[k]
      {
      }
      assert names[0] in files;
    }
  }

  /** The last '/' of `path` is at `d - 1` when none follows it before index `i`. */
  lemma {:induction false} LastSlashAt(path: string, i: nat, d: nat)
    requires 0 < d <= i <= |path| && path[d - 1] == '/'
    requires forall k :: d <= k < i ==> path[k] != '/'
    ensures AfterLastSlash(path, i) == d
    decreases i
  {
    if i > d {
      LastSlashAt(path, i - 1, d);
    }
  }

  /** The basename of a file under a directory ending in '/' is the file's own name. */
  lemma BasenameUnder(dir: string, name: string)
    requires |dir| > 0 && dir[|dir| - 1] == '/' && '/' !in name
    ensures Basename(dir + name) == name
  {
    var path := dir + name;
    forall k | |dir| <= k < |path|
      ensures path[k] != '/'
    {
      assert path[k] == name[k - |dir|];
    }
    LastSlashAt(path, |path|, |dir|);
    assert path[|dir|..] == name;
  }

  /** The V2 items for valid names under /var/local/ucs/ report exactly those names. */
  lemma ListingV2(names: seq<string>, files: set<string>, name: string)
    requires forall k :: 0 <= k < |names| ==> ValidUcsName(names[k])
    requires forall x :: x in files <==> x in names
    ensures (exists k :: 0 <= k < |names| && Basename(UcsDirectory + names[k]) == name)
        <==> ReportsPresent(V2, files, name)
  {
    forall k | 0 <= k < |names|
      ensures Basename(UcsDirectory + names[k]) == names[k]
    {
      BasenameUnder(UcsDirectory, names[k]);
    }
  }
}
