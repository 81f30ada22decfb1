/**
  `ModuleManager.is_version_v1`: which dialect of the device API to speak.
  The device's TMOS version is given as the list of numbers `LooseVersion`
  makes of a dotted numeric version string ("12.1.0" is [12, 1, 0]).
 */
module Version {
  import opened Ordering

  /** The two dialects: V1 lists UCS files through tmsh, V2 through the REST collection. */
  datatype Tier = V1 | V2

  /** `LooseVersion('12.1.0')`. */
  const FirstV2Version: seq<nat> := [12, 1, 0]

  /** True when the version is below 12.1.0 in `LooseVersion` order. */
  function IsVersionV1(version: seq<nat>): (v1: bool)
    ensures v1 <==> |version| == 0 || version[0] < 12
                    || (version[0] == 12 && (|version| == 1 || version[1] == 0
                                             || (version[1] == 1 && |version| == 2)))
  {
    BelowFirstV2Version(version);
    SeqLess(version, FirstV2Version)
  }

  lemma BelowFirstV2Version(version: seq<nat>)
    ensures SeqLess(version, FirstV2Version)
        <==> |version| == 0 || version[0] < 12
             || (version[0] == 12 && (|version| == 1 || version[1] == 0
                                      || (version[1] == 1 && |version| == 2)))
  {
    var t := FirstV2Version;
    assert t[1..] == [1, 0] && t[1..][1..] == [0] && t[1..][1..][1..] == [];
    if |version| >= 1 {
      var v1 := version[1..];
      if |v1| >= 1 {
        var v2 := v1[1..];
        if |v2| >= 1 {
          assert !SeqLess(v2[1..], []);
        }
        assert SeqLess(v2, [0]) <==> |v2| == 0;
      }
    }
  }

  /** `ModuleManager.exec_module`'s choice of manager. */
  function SelectTier(version: seq<nat>): (tier: Tier)
    ensures tier == V1 <==> SeqLess(version, FirstV2Version)
  {
    if IsVersionV1(version) then V1 else V2
  }

  /** The boundary cases: 11.9.9, 12.0.0 and 12.1 are V1; 12.1.0, 12.1.0.1 and 13.0.0 are V2. */
  lemma DispatchBoundaries()
    ensures SelectTier([11, 9, 9]) == V1 && SelectTier([12, 0, 0]) == V1 && SelectTier([12, 1]) == V1
    ensures SelectTier([12, 1, 0]) == V2 && SelectTier([12, 1, 0, 1]) == V2 && SelectTier([13, 0, 0]) == V2
  {
  }

  /** Every version older than a V1 version is V1 as well. */
  lemma {:induction false} V1DownwardClosed(older: seq<nat>, newer: seq<nat>)
    requires SeqLess(older, newer) && IsVersionV1(newer)
    ensures IsVersionV1(older)
  {
    SeqLessTransitive(older, newer, FirstV2Version);
  }

  /** Every version newer than a V2 version is V2 as well. */
  lemma {:induction false} V2UpwardClosed(older: seq<nat>, newer: seq<nat>)
    requires SeqLess(older, newer) && !IsVersionV1(older)
    ensures !IsVersionV1(newer)
  {
    if IsVersionV1(newer) {
      SeqLessTransitive(older, newer, FirstV2Version);
    }
  }
}
