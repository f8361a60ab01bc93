/** `generate_vs_hwskus`: every SKU directory of the device tree becomes a
    SKU of the virtual-switch platform, as a function from the filesystem
    before to the filesystem after. */
module VsHwsku {
  import opened Text
  import opened FileTree
  import opened PortConfig
  import opened DeviceData
  import opened SkuListing

  /** The number of data rows of the table at `p`, or 0 when there is none. */
  function TableRows(t: Tree, p: Path): nat
  {
    if IsFile(t, p) then |DataRows(TableLines(t, p))| else 0
  }

  /** One pass of the ASIC loop over subdirectory `sub` with counter `i`:
      a missing subdirectory is skipped; otherwise it gets the two base
      profiles, loses `context_config.json`, gets its maps from its own
      table numbered on from `i`, and on a chassis its sentinels, the lane
      sentinel counting as one more interface. */
  function AsicStep(t: Tree, vs: Path, sub: Path, chassis: bool, i: nat): PortConfigRun
  {
    if !IsDir(t, sub) then PortConfigRun(t, i)
    else
      var r := PortConfigProcessed(AsicPrepared(t, vs, sub), sub + [PortConfigName], sub, i);
      if !chassis then r
      else
        var bump := if IsFile(r.tree, sub + [LaneMapName]) then 1 else 0;
        PortConfigRun(Cpu0Appended(r.tree, sub), r.next + bump)
  }

  /** The ASIC loop over the subdirectories `subs` of `dst`, in order, with
      the counter shared from one to the next. */
  function AsicsProcessed(t: Tree, vs: Path, dst: Path, chassis: bool, seed: nat, subs: seq<string>): PortConfigRun
  {
    if subs == [] then PortConfigRun(t, seed)
    else
      var r := AsicsProcessed(t, vs, dst, chassis, seed, subs[..|subs| - 1]);
      AsicStep(r.tree, vs, dst + [subs[|subs| - 1]], chassis, r.next)
  }

  /** The interface counter a SKU starts from: 1 on a chassis, else 0. */
  function Seed(chassis: bool): nat
  {
    if chassis then 1 else 0
  }

  /** `<platform>/chassisdb.conf` exists for the platform of `sku`. */
  predicate HasChassisDb(t: Tree, sku: Path)
  {
    IsFile(t, Parent(sku) + [ChassisDbName])
  }

  /** A new SKU's top directory after the copies: the source SKU copied
      in, the platform's `asic.conf` next to it, and the full profile set. */
  function SkuCopied(t: Tree, vs: Path, sku: Path, dst: Path): Tree
  {
    var asicConf := Parent(sku) + [AsicConfName];
    var t1 := CopyTree(t, sku, dst);
    var t2 := if IsFile(t1, asicConf) then CopyFile(t1, asicConf, dst + [AsicConfName]) else t1;
    ProfilesCopied(t2, vs, dst, ProfileCopies(true))
  }

  /** A new SKU's top directory before the ASIC loop: after the copies, the
      maps from its own table numbered from the seed, no
      `context_config.json`, and on a chassis the sentinels. */
  function SkuTop(t: Tree, vs: Path, sku: Path, dst: Path, chassis: bool): Tree
  {
    var t3 := SkuCopied(t, vs, sku, dst);
    var t4 := PortConfigProcessed(t3, dst + [PortConfigName], dst, Seed(chassis)).tree;
    var t5 := Removed(t4, dst + [ContextConfigName]);
    if chassis then Cpu0Appended(t5, dst) else t5
  }

  /** One pass of `generate_vs_hwskus`'s loop, for SKU directory `sku`: a SKU
      whose name already exists in the platform directory `kvmOut` only has
      its profiles refreshed; a new one is built, and its ASIC subdirectories
      are numbered from the seed, whatever its top table counted. */
  function SkuSynthesized(t: Tree, vs: Path, kvmOut: Path, sku: Path): Tree
  {
    var dst := kvmOut + [Name(sku)];
    var chassis := HasChassisDb(t, sku);
    if IsDir(t, dst) then ProfilesCopied(t, vs, dst, ProfileCopies(true))
    else AsicsProcessed(SkuTop(t, vs, sku, dst, chassis), vs, dst, chassis, Seed(chassis), AsicSubdirs).tree
  }

  /** The loop of `generate_vs_hwskus` over `skus`, in order. */
  function SkusSynthesized(t: Tree, vs: Path, kvmOut: Path, skus: seq<Path>): Tree
  {
    if skus == [] then t
    else SkuSynthesized(SkusSynthesized(t, vs, kvmOut, skus[..|skus| - 1]), vs, kvmOut, skus[|skus| - 1])
  }

  /** `generate_vs_hwskus(device, output, vs)` */
  ghost function VsHwskusGenerated(t: Tree, device: Path, output: Path, vs: Path): Tree
  {
    SkusSynthesized(t, vs, output + [KvmPlatform], HwskuDirs(t, device))
  }

  // ---------------------------------------------------------------------
  // Properties
  // ---------------------------------------------------------------------

  /** No two of the fixed names a SKU directory's files carry collide, and
      none is a profile target. */
  lemma FixedNamesDistinct(d: Path)
    ensures d + [PortConfigName] !in ProfileTargets(d, ProfileCopies(true))
    ensures d + [PortConfigName] !in ProfileTargets(d, ProfileCopies(false))
    ensures d + [ContextConfigName] !in ProfileTargets(d, ProfileCopies(true))
    ensures d + [LaneMapName] !in ProfileTargets(d, ProfileCopies(true))
    ensures d + [LaneMapName] !in ProfileTargets(d, ProfileCopies(false))
    ensures d + [CoreMapName] !in ProfileTargets(d, ProfileCopies(true))
    ensures d + [CoreMapName] !in ProfileTargets(d, ProfileCopies(false))
    ensures d + [PortConfigName] != d + [ContextConfigName]
    ensures d + [PortConfigName] != d + [AsicConfName]
    ensures d + [ContextConfigName] != d + [LaneMapName]
    ensures d + [ContextConfigName] != d + [CoreMapName]
    ensures d + [LaneMapName] != d + [CoreMapName]
  {
    ProfileTargetsNamed(d, d + [PortConfigName]);
    ProfileTargetsNamed(d, d + [ContextConfigName]);
    ProfileTargetsNamed(d, d + [LaneMapName]);
    ProfileTargetsNamed(d, d + [CoreMapName]);
    assert (d + [PortConfigName])[|d|] == PortConfigName;
    assert (d + [CoreMapName])[|d|] == CoreMapName;
    assert (d + [ContextConfigName])[|d|] == ContextConfigName;
    assert (d + [LaneMapName])[|d|] == LaneMapName;
    assert forall n :: (d + [n])[|d|] == n;
  }

  /** One ASIC pass: a missing subdirectory changes nothing; otherwise the
      counter advances by the data rows of the subdirectory's own table,
      plus one when on a chassis its lane map exists and gets its sentinel;
      and nothing outside the subdirectory changes. */
  lemma AsicStepSpec(t: Tree, vs: Path, sub: Path, chassis: bool, i: nat)
    ensures !IsDir(t, sub) ==> AsicStep(t, vs, sub, chassis, i) == PortConfigRun(t, i)
    ensures IsDir(t, sub) ==>
              var r := AsicStep(t, vs, sub, chassis, i);
              r.next == i + TableRows(t, sub + [PortConfigName])
                          + (if chassis && IsFile(r.tree, sub + [LaneMapName]) then 1 else 0)
    ensures OnlyBelow(t, AsicStep(t, vs, sub, chassis, i).tree, sub)
  {
    if IsDir(t, sub) {
      var table := sub + [PortConfigName];
      var t1 := ProfilesCopied(t, vs, sub, ProfileCopies(false));
      var t2 := Removed(t1, sub + [ContextConfigName]);
      var r := PortConfigProcessed(t2, table, sub, i);
      ProfileCopiesIndependent(false);
      ProfilesCopiedSpec(t, vs, sub, ProfileCopies(false));
      ProfilesCopiedOnlyBelow(t, vs, sub, false);
      FixedNamesDistinct(sub);
      RemovedSpec(t1, sub + [ContextConfigName]);
      assert SameAt(t, t2, table);
      PortConfigProcessedSpec(t2, table, sub, i);
      PortConfigProcessedOnlyBelow(t2, table, sub, i);
      Cpu0AppendedSpec(r.tree, sub);
      assert OnlyBelow(t1, t2, sub) by {
        forall q | !(sub < q) ensures SameAt(t1, t2, q) {
          assert sub < sub + [ContextConfigName];
        }
      }
      OnlyBelowTrans(t, t1, t2, sub);
      OnlyBelowTrans(t, t2, r.tree, sub);
      if chassis {
        assert OnlyBelow(r.tree, Cpu0Appended(r.tree, sub), sub) by {
          forall q | !(sub < q) ensures SameAt(r.tree, Cpu0Appended(r.tree, sub), q) {
            assert sub < sub + [LaneMapName] && sub < sub + [CoreMapName];
          }
        }
        OnlyBelowTrans(t, r.tree, Cpu0Appended(r.tree, sub), sub);
      }
    }
  }

  /** The ASIC loop never lowers the counter and changes nothing outside
      the SKU's subdirectories, nor any entry of the SKU's top directory
      itself. */
  lemma {:induction false} AsicsProcessedSpec(t: Tree, vs: Path, dst: Path, chassis: bool, seed: nat, subs: seq<string>)
    ensures seed <= AsicsProcessed(t, vs, dst, chassis, seed, subs).next
    ensures OnlyBelow(t, AsicsProcessed(t, vs, dst, chassis, seed, subs).tree, dst)
    ensures forall n :: SameAt(t, AsicsProcessed(t, vs, dst, chassis, seed, subs).tree, dst + [n])
  {
    if subs != [] {
      var r := AsicsProcessed(t, vs, dst, chassis, seed, subs[..|subs| - 1]);
      var sub := dst + [subs[|subs| - 1]];
      AsicsProcessedSpec(t, vs, dst, chassis, seed, subs[..|subs| - 1]);
      AsicStepSpec(r.tree, vs, sub, chassis, r.next);
      var u := AsicStep(r.tree, vs, sub, chassis, r.next).tree;
      OnlyBelowWithin(r.tree, u, sub);
      OnlyWithinChild(r.tree, u, dst, subs[|subs| - 1]);
      OnlyBelowTrans(t, r.tree, u, dst);
      forall n ensures SameAt(r.tree, u, dst + [n]) {
        SiblingsNotNested(dst, subs[|subs| - 1], n);
      }
    }
  }

  /** The tree an ASIC pass hands to the table processing: the profiles
      copied in and `context_config.json` removed, with the subdirectory's
      table and maps as they were. */
  function AsicPrepared(t: Tree, vs: Path, sub: Path): Tree
  {
    Removed(ProfilesCopied(t, vs, sub, ProfileCopies(false)), sub + [ContextConfigName])
  }

  /** Preparing an ASIC subdirectory leaves its table and both maps alone. */
  lemma AsicPreparedKeeps(t: Tree, vs: Path, sub: Path)
    ensures var u := AsicPrepared(t, vs, sub);
            SameAt(t, u, sub + [PortConfigName]) && SameAt(t, u, sub + [LaneMapName]) && SameAt(t, u, sub + [CoreMapName])
  {
    var t1 := ProfilesCopied(t, vs, sub, ProfileCopies(false));
    ProfileCopiesIndependent(false);
    ProfilesCopiedSpec(t, vs, sub, ProfileCopies(false));
    FixedNamesDistinct(sub);
    RemovedSpec(t1, sub + [ContextConfigName]);
  }

  /** One ASIC pass writes the subdirectory's maps from its own table,
      numbered on from the incoming counter `i`, each followed on a chassis
      by its sentinel; a map without records is never created. */
  lemma AsicStepMaps(t: Tree, vs: Path, sub: Path, chassis: bool, i: nat)
    requires IsDir(t, sub) && IsFile(t, sub + [PortConfigName])
    ensures var p := Parse(TableLines(t, sub + [PortConfigName]), i);
            var u := AsicStep(t, vs, sub, chassis, i).tree;
            && (p.lanes != [] ==>
                  IsFile(u, sub + [LaneMapName])
                  && u[sub + [LaneMapName]].content == LaneMapText(p.lanes) + (if chassis then LaneSentinel else ""))
            && (p.cores != [] ==>
                  IsFile(u, sub + [CoreMapName])
                  && u[sub + [CoreMapName]].content == CoreMapText(p.cores) + (if chassis then CoreSentinel else ""))
            && (p.lanes == [] && !IsFile(t, sub + [LaneMapName]) ==> !IsFile(u, sub + [LaneMapName]))
            && (p.cores == [] && !IsFile(t, sub + [CoreMapName]) ==> !IsFile(u, sub + [CoreMapName]))
  {
    var t2 := AsicPrepared(t, vs, sub);
    var r := PortConfigProcessed(t2, sub + [PortConfigName], sub, i);
    AsicPreparedKeeps(t, vs, sub);
    FixedNamesDistinct(sub);
    PortConfigProcessedSpec(t2, sub + [PortConfigName], sub, i);
    Cpu0AppendedSpec(r.tree, sub);
  }

  /** The table at `p` yields lane records (from any starting counter). */
  predicate TableHasLanes(t: Tree, p: Path)
  {
    IsFile(t, p) && Parse(TableLines(t, p), 0).lanes != []
  }

  /** After an ASIC pass the subdirectory has a lane map exactly when it had
      one before or its table yields lane records. */
  lemma AsicStepLaneFile(t: Tree, vs: Path, sub: Path, chassis: bool, i: nat)
    requires IsDir(t, sub)
    ensures IsFile(AsicStep(t, vs, sub, chassis, i).tree, sub + [LaneMapName])
            <==> IsFile(t, sub + [LaneMapName]) || TableHasLanes(t, sub + [PortConfigName])
  {
    var table := sub + [PortConfigName];
    var t2 := AsicPrepared(t, vs, sub);
    var r := PortConfigProcessed(t2, table, sub, i);
    AsicPreparedKeeps(t, vs, sub);
    FixedNamesDistinct(sub);
    PortConfigProcessedSpec(t2, table, sub, i);
    if IsFile(t, table) {
      var lines := TableLines(t, table);
      NumberRowsLanesEmpty(DataRows(lines), ColumnCount(lines), i, 0);
    }
    Cpu0AppendedSpec(r.tree, sub);
  }

  /** The interface a chassis lane sentinel of subdirectory `sub` uses up. */
  function AsicBump(t: Tree, sub: Path, chassis: bool): nat
  {
    if chassis && (IsFile(t, sub + [LaneMapName]) || TableHasLanes(t, sub + [PortConfigName])) then 1 else 0
  }

  /** The counter after the ASIC subdirectories `subs` of `dst`, in terms of
      the tree before the loop: the seed, plus for each existing
      subdirectory its data rows and, on a chassis, one for its lane
      sentinel. */
  function AsicCounter(t: Tree, dst: Path, chassis: bool, seed: nat, subs: seq<string>): nat
  {
    if subs == [] then seed
    else
      var i := AsicCounter(t, dst, chassis, seed, subs[..|subs| - 1]);
      var sub := dst + [subs[|subs| - 1]];
      if IsDir(t, sub) then i + TableRows(t, sub + [PortConfigName]) + AsicBump(t, sub, chassis) else i
  }

  /** One ASIC pass advances the counter by the subdirectory's data rows and
      its sentinel, both read from the tree before the pass. */
  lemma AsicStepCounter(t: Tree, vs: Path, sub: Path, chassis: bool, i: nat)
    ensures AsicStep(t, vs, sub, chassis, i).next ==
              if IsDir(t, sub) then i + TableRows(t, sub + [PortConfigName]) + AsicBump(t, sub, chassis) else i
  {
    AsicStepSpec(t, vs, sub, chassis, i);
    if IsDir(t, sub) {
      AsicStepLaneFile(t, vs, sub, chassis, i);
    }
  }

  /** Paths below one subdirectory are never strictly below a sibling. */
  lemma SiblingsApart(d: Path, a: string, b: string, x: Path)
    requires a != b
    ensures !(d + [a] < d + [b] + x)
  {
    assert (d + [b] + x)[|d|] == b;
  }

  /** Names that occur at most once. */
  predicate Distinct(subs: seq<string>)
  {
    forall a, b :: 0 <= a < b < |subs| ==> subs[a] != subs[b]
  }

  /** The passes after the first `m` leave every path below a subdirectory
      they do not visit as the first `m` passes left it. */
  lemma {:induction false} AsicsProcessedFrom(t: Tree, vs: Path, dst: Path, chassis: bool, seed: nat,
                                              subs: seq<string>, m: nat, n: string, x: Path)
    requires m <= |subs| && n !in subs[m..]
    ensures SameAt(AsicsProcessed(t, vs, dst, chassis, seed, subs[..m]).tree,
                   AsicsProcessed(t, vs, dst, chassis, seed, subs).tree, dst + [n] + x)
    decreases |subs|
  {
    if |subs| > m {
      var init, last := subs[..|subs| - 1], subs[|subs| - 1];
      assert init[..m] == subs[..m];
      assert subs[m..][|subs| - 1 - m] == last;
      assert init[m..] == subs[m..][..|subs| - 1 - m];
      AsicsProcessedFrom(t, vs, dst, chassis, seed, init, m, n, x);
      var r := AsicsProcessed(t, vs, dst, chassis, seed, init);
      var q := dst + [n] + x;
      AsicStepSpec(r.tree, vs, dst + [last], chassis, r.next);
      SiblingsApart(dst, last, n, x);
      assert SameAt(AsicsProcessed(t, vs, dst, chassis, seed, subs[..m]).tree, r.tree, q);
      assert SameAt(r.tree, AsicsProcessed(t, vs, dst, chassis, seed, subs).tree, q);
    } else {
      assert subs[..m] == subs;
    }
  }

  /** The counter the ASIC loop returns is `AsicCounter` of the tree before
      the loop: it is threaded on from one subdirectory to the next and
      never reset. */
  lemma {:induction false} AsicsProcessedCounter(t: Tree, vs: Path, dst: Path, chassis: bool, seed: nat, subs: seq<string>)
    requires Distinct(subs)
    ensures AsicsProcessed(t, vs, dst, chassis, seed, subs).next == AsicCounter(t, dst, chassis, seed, subs)
  {
    if subs != [] {
      var init, last := subs[..|subs| - 1], subs[|subs| - 1];
      var sub := dst + [last];
      AsicsProcessedCounter(t, vs, dst, chassis, seed, init);
      var r := AsicsProcessed(t, vs, dst, chassis, seed, init);
      assert last !in init[0..] by {
        assert init[0..] == init;
        forall a | 0 <= a < |init| ensures init[a] != last {
          assert init[a] == subs[a];
        }
      }
      assert init[..0] == [];
      AsicsProcessedFrom(t, vs, dst, chassis, seed, init, 0, last, []);
      AsicsProcessedFrom(t, vs, dst, chassis, seed, init, 0, last, [PortConfigName]);
      AsicsProcessedFrom(t, vs, dst, chassis, seed, init, 0, last, [LaneMapName]);
      assert sub + [] == sub;
      AsicStepCounter(r.tree, vs, sub, chassis, r.next);
    }
  }

  /** After the ASIC loop, each subdirectory's maps hold its own table's
      records numbered on from the counter the earlier subdirectories
      left, each followed on a chassis by its sentinel. */
  lemma AsicSubdirMaps(t: Tree, vs: Path, dst: Path, chassis: bool, seed: nat, subs: seq<string>, j: nat)
    requires Distinct(subs) && j < |subs|
    requires IsDir(t, dst + [subs[j]]) && IsFile(t, dst + [subs[j]] + [PortConfigName])
    ensures var sub := dst + [subs[j]];
            var p := Parse(TableLines(t, sub + [PortConfigName]), AsicCounter(t, dst, chassis, seed, subs[..j]));
            var u := AsicsProcessed(t, vs, dst, chassis, seed, subs).tree;
            && (p.lanes != [] ==>
                  IsFile(u, sub + [LaneMapName])
                  && u[sub + [LaneMapName]].content == LaneMapText(p.lanes) + (if chassis then LaneSentinel else ""))
            && (p.cores != [] ==>
                  IsFile(u, sub + [CoreMapName])
                  && u[sub + [CoreMapName]].content == CoreMapText(p.cores) + (if chassis then CoreSentinel else ""))
  {
    var n := subs[j];
    var sub := dst + [n];
    var pre := subs[..j];
    AsicsProcessedCounter(t, vs, dst, chassis, seed, pre);
    var r := AsicsProcessed(t, vs, dst, chassis, seed, pre);
    assert n !in pre[0..] by {
      forall a | 0 <= a < |pre| ensures pre[a] != n {
        assert pre[a] == subs[a];
      }
    }
    assert pre[..0] == [];
    AsicsProcessedFrom(t, vs, dst, chassis, seed, pre, 0, n, []);
    AsicsProcessedFrom(t, vs, dst, chassis, seed, pre, 0, n, [PortConfigName]);
    assert sub + [] == sub;
    AsicStepMaps(r.tree, vs, sub, chassis, r.next);
    var pre1 := subs[..j + 1];
    assert pre1[..|pre1| - 1] == pre && pre1[|pre1| - 1] == n;
    assert n !in subs[j + 1..] by {
      forall a | j + 1 <= a < |subs| ensures subs[a] != n { }
    }
    AsicsProcessedFrom(t, vs, dst, chassis, seed, subs, j + 1, n, [LaneMapName]);
    AsicsProcessedFrom(t, vs, dst, chassis, seed, subs, j + 1, n, [CoreMapName]);
  }

  /** On a chassis, subdirectory `0` is numbered from the seed 1: its
      records are `eth2` .. `eth(k + 1)` for its `k` data rows, and its lane
      map ends with the sentinel. */
  lemma ChassisFirstAsic(t: Tree, vs: Path, dst: Path)
    requires IsDir(t, dst + ["0"]) && TableHasLanes(t, dst + ["0"] + [PortConfigName])
    ensures var table0 := dst + ["0"] + [PortConfigName];
            var lanes0 := Parse(TableLines(t, table0), Seed(true)).lanes;
            var u := AsicsProcessed(t, vs, dst, true, Seed(true), AsicSubdirs).tree;
            && IsFile(u, dst + ["0"] + [LaneMapName])
            && u[dst + ["0"] + [LaneMapName]].content == LaneMapText(lanes0) + LaneSentinel
            && (forall e :: 0 <= e < |lanes0| ==> 2 <= lanes0[e].index <= TableRows(t, table0) + 1)
  {
    var lines0 := TableLines(t, dst + ["0"] + [PortConfigName]);
    assert Distinct(AsicSubdirs);
    assert AsicSubdirs[..0] == [];
    AsicSubdirMaps(t, vs, dst, true, 1, AsicSubdirs, 0);
    NumberRowsLanesEmpty(DataRows(lines0), ColumnCount(lines0), 1, 0);
    NumberRowsLanesSound(DataRows(lines0), ColumnCount(lines0), 1);
  }

  /** On a chassis whose subdirectory `0` has lane records, the counter
      subdirectory `1` starts from is past `0`'s records and its
      sentinel. */
  lemma ChassisSecondCounter(t: Tree, dst: Path)
    requires IsDir(t, dst + ["0"]) && TableHasLanes(t, dst + ["0"] + [PortConfigName])
    ensures AsicCounter(t, dst, true, Seed(true), AsicSubdirs[..1]) == TableRows(t, dst + ["0"] + [PortConfigName]) + 2
  {
    assert AsicSubdirs[..1] == ["0"];
    assert ["0"][..0] == [];
  }

  /** On a chassis whose subdirectory `0` has `k` data rows with lane
      records, subdirectory `1` is numbered on from `k + 2`, past `0`'s
      records and its sentinel. */
  lemma ChassisSecondAsic(t: Tree, vs: Path, dst: Path)
    requires IsDir(t, dst + ["0"]) && IsDir(t, dst + ["1"])
    requires TableHasLanes(t, dst + ["0"] + [PortConfigName]) && IsFile(t, dst + ["1"] + [PortConfigName])
    ensures var k := TableRows(t, dst + ["0"] + [PortConfigName]);
            var lanes1 := Parse(TableLines(t, dst + ["1"] + [PortConfigName]), k + 2).lanes;
            var u := AsicsProcessed(t, vs, dst, true, Seed(true), AsicSubdirs).tree;
            && (lanes1 != [] ==>
                  IsFile(u, dst + ["1"] + [LaneMapName])
                  && u[dst + ["1"] + [LaneMapName]].content == LaneMapText(lanes1) + LaneSentinel)
            && (forall e :: 0 <= e < |lanes1| ==> k + 3 <= lanes1[e].index)
  {
    var lines1 := TableLines(t, dst + ["1"] + [PortConfigName]);
    var k := TableRows(t, dst + ["0"] + [PortConfigName]);
    ChassisSecondCounter(t, dst);
    assert Distinct(AsicSubdirs);
    AsicSubdirMaps(t, vs, dst, true, 1, AsicSubdirs, 1);
    NumberRowsLanesSound(DataRows(lines1), ColumnCount(lines1), k + 2);
  }

  /** Counter continuity on a chassis SKU with ASIC subdirectories `0` and
      `1`: subdirectory `0` is numbered from the seed 1, so its records are
      `eth2` .. `eth(k + 1)` for its `k` data rows; its sentinel uses up one
      more interface; and subdirectory `1` goes on from there, its first
      record being at least `eth(k + 3)`. */
  lemma ChassisAsicContinuity(t: Tree, vs: Path, dst: Path)
    requires IsDir(t, dst + ["0"]) && IsDir(t, dst + ["1"])
    requires TableHasLanes(t, dst + ["0"] + [PortConfigName]) && IsFile(t, dst + ["1"] + [PortConfigName])
    ensures var table0, table1 := dst + ["0"] + [PortConfigName], dst + ["1"] + [PortConfigName];
            var k := TableRows(t, table0);
            var lanes0 := Parse(TableLines(t, table0), Seed(true)).lanes;
            var lanes1 := Parse(TableLines(t, table1), k + 2).lanes;
            var u := AsicsProcessed(t, vs, dst, true, Seed(true), AsicSubdirs).tree;
            && IsFile(u, dst + ["0"] + [LaneMapName])
            && u[dst + ["0"] + [LaneMapName]].content == LaneMapText(lanes0) + LaneSentinel
            && (forall e :: 0 <= e < |lanes0| ==> 2 <= lanes0[e].index <= k + 1)
            && (lanes1 != [] ==>
                  IsFile(u, dst + ["1"] + [LaneMapName])
                  && u[dst + ["1"] + [LaneMapName]].content == LaneMapText(lanes1) + LaneSentinel)
            && (forall e :: 0 <= e < |lanes1| ==> k + 3 <= lanes1[e].index)
  {
    ChassisFirstAsic(t, vs, dst);
    ChassisSecondAsic(t, vs, dst);
  }

  /** Two sibling paths are never one strictly inside the other. */
  lemma SiblingsNotNested(d: Path, a: string, b: string)
    ensures !(d + [a] < d + [b])
  {
    assert |d + [a]| == |d + [b]|;
  }

  /** The copies of a new SKU change nothing outside its directory, and
      leave it a directory when the source SKU is one. */
  lemma SkuCopiedFrame(t: Tree, vs: Path, sku: Path, dst: Path)
    ensures OnlyWithin(t, SkuCopied(t, vs, sku, dst), dst)
    ensures IsDir(t, sku) ==> IsDir(SkuCopied(t, vs, sku, dst), dst)
  {
    var asicConf := Parent(sku) + [AsicConfName];
    var t1 := CopyTree(t, sku, dst);
    var t2 := if IsFile(t1, asicConf) then CopyFile(t1, asicConf, dst + [AsicConfName]) else t1;
    var t3 := SkuCopied(t, vs, sku, dst);
    CopyTreeSpec(t, sku, dst, []);
    if IsDir(t, sku) {
      CopyTreeMakesDir(t, sku, dst);
    }
    ChangeAtChild(t1, t2, dst, AsicConfName);
    ProfilesCopiedOnlyBelow(t2, vs, dst, true);
    OnlyBelowTrans(t1, t2, t3, dst);
    assert SameAt(t1, t3, dst) by { assert !(dst < dst); }
    OnlyBelowWithin(t1, t3, dst);
    OnlyWithinTrans(t, t1, t3, dst);
  }

  /** The copies of a new SKU bring the source SKU's table along. */
  lemma SkuCopiedTable(t: Tree, vs: Path, sku: Path, dst: Path)
    requires IsFile(t, sku + [PortConfigName])
    ensures IsFile(SkuCopied(t, vs, sku, dst), dst + [PortConfigName])
    ensures SkuCopied(t, vs, sku, dst)[dst + [PortConfigName]] == t[sku + [PortConfigName]]
  {
    var asicConf := Parent(sku) + [AsicConfName];
    var t1 := CopyTree(t, sku, dst);
    var t2 := if IsFile(t1, asicConf) then CopyFile(t1, asicConf, dst + [AsicConfName]) else t1;
    FixedNamesDistinct(dst);
    CopyTreeSpec(t, sku, dst, [PortConfigName]);
    assert SameAt(t1, t2, dst + [PortConfigName]);
    ProfileCopiesIndependent(true);
    ProfilesCopiedSpec(t2, vs, dst, ProfileCopies(true));
  }

  /** Writing a new SKU's top maps changes only entries of its directory. */
  lemma SkuTopFrame(t: Tree, vs: Path, sku: Path, dst: Path, chassis: bool)
    ensures OnlyBelow(SkuCopied(t, vs, sku, dst), SkuTop(t, vs, sku, dst, chassis), dst)
  {
    var t3 := SkuCopied(t, vs, sku, dst);
    var t4 := PortConfigProcessed(t3, dst + [PortConfigName], dst, Seed(chassis)).tree;
    var t5 := Removed(t4, dst + [ContextConfigName]);
    PortConfigProcessedOnlyBelow(t3, dst + [PortConfigName], dst, Seed(chassis));
    RemovedSpec(t4, dst + [ContextConfigName]);
    ChangeAtChild(t4, t5, dst, ContextConfigName);
    OnlyBelowTrans(t3, t4, t5, dst);
    if chassis {
      Cpu0AppendedOnlyBelow(t5, dst);
      OnlyBelowTrans(t3, t5, Cpu0Appended(t5, dst), dst);
    }
  }

  /** A new SKU's top directory loses `context_config.json`. */
  lemma SkuTopNoContext(t: Tree, vs: Path, sku: Path, dst: Path, chassis: bool)
    ensures !IsFile(SkuTop(t, vs, sku, dst, chassis), dst + [ContextConfigName])
  {
    var t3 := SkuCopied(t, vs, sku, dst);
    var t4 := PortConfigProcessed(t3, dst + [PortConfigName], dst, Seed(chassis)).tree;
    var t5 := Removed(t4, dst + [ContextConfigName]);
    RemovedSpec(t4, dst + [ContextConfigName]);
    FixedNamesDistinct(dst);
    Cpu0AppendedSpec(t5, dst);
  }

  /** When a new SKU's table yields lane records, its top lane map holds
      exactly those records followed on a chassis by the sentinel. */
  lemma SkuTopLaneMap(t: Tree, vs: Path, sku: Path, dst: Path, chassis: bool)
    requires IsFile(SkuCopied(t, vs, sku, dst), dst + [PortConfigName])
    ensures var lanes := Parse(TableLines(SkuCopied(t, vs, sku, dst), dst + [PortConfigName]), Seed(chassis)).lanes;
            var u := SkuTop(t, vs, sku, dst, chassis);
            lanes != [] ==>
              IsFile(u, dst + [LaneMapName])
              && u[dst + [LaneMapName]].content == LaneMapText(lanes) + (if chassis then LaneSentinel else "")
  {
    var lane, ctx := dst + [LaneMapName], dst + [ContextConfigName];
    var t3 := SkuCopied(t, vs, sku, dst);
    var t4 := PortConfigProcessed(t3, dst + [PortConfigName], dst, Seed(chassis)).tree;
    var t5 := Removed(t4, ctx);
    FixedNamesDistinct(dst);
    PortConfigProcessedSpec(t3, dst + [PortConfigName], dst, Seed(chassis));
    RemovedSpec(t4, ctx);
    assert SameAt(t4, t5, lane);
    Cpu0AppendedSpec(t5, dst);
  }

  /** When a new SKU's table yields core records, its top core map holds
      exactly those records followed on a chassis by the sentinel. */
  lemma SkuTopCoreMap(t: Tree, vs: Path, sku: Path, dst: Path, chassis: bool)
    requires IsFile(SkuCopied(t, vs, sku, dst), dst + [PortConfigName])
    ensures var cores := Parse(TableLines(SkuCopied(t, vs, sku, dst), dst + [PortConfigName]), Seed(chassis)).cores;
            var u := SkuTop(t, vs, sku, dst, chassis);
            cores != [] ==>
              IsFile(u, dst + [CoreMapName])
              && u[dst + [CoreMapName]].content == CoreMapText(cores) + (if chassis then CoreSentinel else "")
  {
    var core, ctx := dst + [CoreMapName], dst + [ContextConfigName];
    var t3 := SkuCopied(t, vs, sku, dst);
    var t4 := PortConfigProcessed(t3, dst + [PortConfigName], dst, Seed(chassis)).tree;
    var t5 := Removed(t4, ctx);
    FixedNamesDistinct(dst);
    PortConfigProcessedSpec(t3, dst + [PortConfigName], dst, Seed(chassis));
    RemovedSpec(t4, ctx);
    assert SameAt(t4, t5, core);
    Cpu0AppendedSpec(t5, dst);
  }

  /** A SKU whose name the platform already has only gets its five profiles
      refreshed, each from its template when that exists. */
  lemma ExistingSkuRefreshed(t: Tree, vs: Path, kvmOut: Path, sku: Path)
    requires IsDir(t, kvmOut + [Name(sku)])
    ensures var u := SkuSynthesized(t, vs, kvmOut, sku);
            && (forall q :: q !in ProfileTargets(kvmOut + [Name(sku)], ProfileCopies(true)) ==> SameAt(t, u, q))
            && (forall c :: c in ProfileCopies(true) && IsFile(t, vs + [c.source]) ==>
                  IsFile(u, kvmOut + [Name(sku), c.target])
                  && u[kvmOut + [Name(sku), c.target]].content == t[vs + [c.source]].content)
  {
    var dst := kvmOut + [Name(sku)];
    var copies := ProfileCopies(true);
    var u := SkuSynthesized(t, vs, kvmOut, sku);
    ProfileCopiesIndependent(true);
    ProfilesCopiedSpec(t, vs, dst, copies);
    forall c | c in copies && IsFile(t, vs + [c.source])
      ensures IsFile(u, kvmOut + [Name(sku), c.target]) && u[kvmOut + [Name(sku), c.target]].content == t[vs + [c.source]].content
    {
      var k :| 0 <= k < |copies| && copies[k] == c;
      assert kvmOut + [Name(sku), c.target] == dst + [c.target];
    }
  }

  /** The ASIC loop of a new SKU leaves the entries of its top directory as
      they were. */
  lemma NewSkuTopKept(t: Tree, vs: Path, kvmOut: Path, sku: Path, n: string)
    requires !IsDir(t, kvmOut + [Name(sku)])
    ensures SameAt(SkuTop(t, vs, sku, kvmOut + [Name(sku)], HasChassisDb(t, sku)),
                   SkuSynthesized(t, vs, kvmOut, sku), kvmOut + [Name(sku), n])
  {
    var dst := kvmOut + [Name(sku)];
    var chassis := HasChassisDb(t, sku);
    AsicsProcessedSpec(SkuTop(t, vs, sku, dst, chassis), vs, dst, chassis, Seed(chassis), AsicSubdirs);
    assert kvmOut + [Name(sku), n] == dst + [n];
  }

  /** A new SKU loses `context_config.json` at its top. */
  lemma NewSkuNoContext(t: Tree, vs: Path, kvmOut: Path, sku: Path)
    requires !IsDir(t, kvmOut + [Name(sku)])
    ensures !IsFile(SkuSynthesized(t, vs, kvmOut, sku), kvmOut + [Name(sku), ContextConfigName])
  {
    SkuTopNoContext(t, vs, sku, kvmOut + [Name(sku)], HasChassisDb(t, sku));
    NewSkuTopKept(t, vs, kvmOut, sku, ContextConfigName);
    assert kvmOut + [Name(sku), ContextConfigName] == kvmOut + [Name(sku)] + [ContextConfigName];
  }

  /** When a new SKU's source table yields lane records, its top lane map
      holds exactly those records numbered from the seed (from `eth1`, or on
      a chassis from `eth2`), followed on a chassis by the sentinel. */
  lemma NewSkuLaneMap(t: Tree, vs: Path, kvmOut: Path, sku: Path)
    requires !IsDir(t, kvmOut + [Name(sku)]) && IsFile(t, sku + [PortConfigName])
    ensures var chassis := HasChassisDb(t, sku);
            var lanes := Parse(TableLines(t, sku + [PortConfigName]), Seed(chassis)).lanes;
            var u := SkuSynthesized(t, vs, kvmOut, sku);
            lanes != [] ==>
              IsFile(u, kvmOut + [Name(sku), LaneMapName])
              && u[kvmOut + [Name(sku), LaneMapName]].content == LaneMapText(lanes) + (if chassis then LaneSentinel else "")
  {
    var dst := kvmOut + [Name(sku)];
    SkuCopiedTable(t, vs, sku, dst);
    SkuTopLaneMap(t, vs, sku, dst, HasChassisDb(t, sku));
    NewSkuTopKept(t, vs, kvmOut, sku, LaneMapName);
    assert kvmOut + [Name(sku), LaneMapName] == dst + [LaneMapName];
  }

  /** When a new SKU's source table yields core records, its top core map
      holds exactly those records numbered from the seed, followed on a
      chassis by the sentinel. */
  lemma NewSkuCoreMap(t: Tree, vs: Path, kvmOut: Path, sku: Path)
    requires !IsDir(t, kvmOut + [Name(sku)]) && IsFile(t, sku + [PortConfigName])
    ensures var chassis := HasChassisDb(t, sku);
            var cores := Parse(TableLines(t, sku + [PortConfigName]), Seed(chassis)).cores;
            var u := SkuSynthesized(t, vs, kvmOut, sku);
            cores != [] ==>
              IsFile(u, kvmOut + [Name(sku), CoreMapName])
              && u[kvmOut + [Name(sku), CoreMapName]].content == CoreMapText(cores) + (if chassis then CoreSentinel else "")
  {
    var dst := kvmOut + [Name(sku)];
    SkuCopiedTable(t, vs, sku, dst);
    SkuTopCoreMap(t, vs, sku, dst, HasChassisDb(t, sku));
    NewSkuTopKept(t, vs, kvmOut, sku, CoreMapName);
    assert kvmOut + [Name(sku), CoreMapName] == dst + [CoreMapName];
  }

  /** Nothing outside the SKU's directory in the platform changes, and that
      directory exists afterwards when it did before or the source SKU is a
      directory. */
  lemma SkuSynthesizedFrame(t: Tree, vs: Path, kvmOut: Path, sku: Path)
    ensures OnlyWithin(t, SkuSynthesized(t, vs, kvmOut, sku), kvmOut + [Name(sku)])
    ensures IsDir(t, sku) || IsDir(t, kvmOut + [Name(sku)]) ==>
              IsDir(SkuSynthesized(t, vs, kvmOut, sku), kvmOut + [Name(sku)])
  {
    var dst := kvmOut + [Name(sku)];
    var u := SkuSynthesized(t, vs, kvmOut, sku);
    if IsDir(t, dst) {
      ProfilesCopiedOnlyBelow(t, vs, dst, true);
      OnlyBelowWithin(t, u, dst);
      assert !(dst < dst);
      assert SameAt(t, u, dst);
    } else {
      NewSkuFrame(t, vs, kvmOut, sku);
      NewSkuIsDir(t, vs, kvmOut, sku);
    }
  }

  /** A new SKU changes nothing outside its directory. */
  lemma NewSkuFrame(t: Tree, vs: Path, kvmOut: Path, sku: Path)
    requires !IsDir(t, kvmOut + [Name(sku)])
    ensures OnlyWithin(t, SkuSynthesized(t, vs, kvmOut, sku), kvmOut + [Name(sku)])
  {
    var dst := kvmOut + [Name(sku)];
    var chassis := HasChassisDb(t, sku);
    var t3 := SkuCopied(t, vs, sku, dst);
    var top := SkuTop(t, vs, sku, dst, chassis);
    var u := SkuSynthesized(t, vs, kvmOut, sku);
    SkuCopiedFrame(t, vs, sku, dst);
    SkuTopFrame(t, vs, sku, dst, chassis);
    AsicsProcessedSpec(top, vs, dst, chassis, Seed(chassis), AsicSubdirs);
    OnlyBelowTrans(t3, top, u, dst);
    OnlyBelowWithin(t3, u, dst);
    OnlyWithinTrans(t, t3, u, dst);
  }

  /** A new SKU copied from a directory is a directory. */
  lemma NewSkuIsDir(t: Tree, vs: Path, kvmOut: Path, sku: Path)
    requires !IsDir(t, kvmOut + [Name(sku)])
    ensures IsDir(t, sku) ==> IsDir(SkuSynthesized(t, vs, kvmOut, sku), kvmOut + [Name(sku)])
  {
    var dst := kvmOut + [Name(sku)];
    var chassis := HasChassisDb(t, sku);
    var t3 := SkuCopied(t, vs, sku, dst);
    var top := SkuTop(t, vs, sku, dst, chassis);
    var u := SkuSynthesized(t, vs, kvmOut, sku);
    SkuCopiedFrame(t, vs, sku, dst);
    SkuTopFrame(t, vs, sku, dst, chassis);
    AsicsProcessedSpec(top, vs, dst, chassis, Seed(chassis), AsicSubdirs);
    assert !(dst < dst);
    assert SameAt(t3, top, dst) && SameAt(top, u, dst);
  }

  /** A directory of the platform stays a directory through one pass. */
  lemma SkuKeepsDirs(t: Tree, vs: Path, kvmOut: Path, sku: Path, n: string)
    requires IsDir(t, kvmOut + [n])
    ensures IsDir(SkuSynthesized(t, vs, kvmOut, sku), kvmOut + [n])
  {
    SkuSynthesizedFrame(t, vs, kvmOut, sku);
    if n != Name(sku) {
      assert (kvmOut + [n])[|kvmOut|] == n;
      assert !(kvmOut + [Name(sku)] <= kvmOut + [n]);
      assert SameAt(t, SkuSynthesized(t, vs, kvmOut, sku), kvmOut + [n]);
    }
  }

  /** A later SKU directory with the name of an earlier one only refreshes
      the profiles of the SKU the earlier one created: the first SKU of a
      name wins. */
  lemma DuplicateSkuRefreshes(t: Tree, vs: Path, kvmOut: Path, first: Path, later: Path)
    requires Name(first) == Name(later) && IsDir(t, first)
    ensures var u := SkuSynthesized(t, vs, kvmOut, first);
            SkuSynthesized(u, vs, kvmOut, later) == ProfilesCopied(u, vs, kvmOut + [Name(later)], ProfileCopies(true))
  {
    SkuSynthesizedFrame(t, vs, kvmOut, first);
  }

  /** The SKU loop changes nothing outside the platform directory; in
      particular the device tree it reads from is left as it was. */
  lemma {:induction false} SkusSynthesizedOnlyWithin(t: Tree, vs: Path, kvmOut: Path, skus: seq<Path>)
    ensures OnlyWithin(t, SkusSynthesized(t, vs, kvmOut, skus), kvmOut)
  {
    if skus != [] {
      var r := SkusSynthesized(t, vs, kvmOut, skus[..|skus| - 1]);
      var sku := skus[|skus| - 1];
      SkusSynthesizedOnlyWithin(t, vs, kvmOut, skus[..|skus| - 1]);
      SkuSynthesizedFrame(r, vs, kvmOut, sku);
      OnlyWithinWiden(r, SkuSynthesized(r, vs, kvmOut, sku), kvmOut + [Name(sku)], kvmOut);
      OnlyWithinTrans(t, r, SkuSynthesized(r, vs, kvmOut, sku), kvmOut);
    }
  }

  /** Every SKU directory the loop visits, outside the platform directory,
      ends up as a SKU directory of the platform under its own name. */
  lemma {:induction false} SkusSynthesizedCreate(t: Tree, vs: Path, kvmOut: Path, skus: seq<Path>)
    requires forall x :: x in skus ==> IsDir(t, x) && !(kvmOut <= x)
    ensures forall x :: x in skus ==> IsDir(SkusSynthesized(t, vs, kvmOut, skus), kvmOut + [Name(x)])
  {
    if skus != [] {
      var init, sku := skus[..|skus| - 1], skus[|skus| - 1];
      var r := SkusSynthesized(t, vs, kvmOut, init);
      assert skus == init + [sku];
      assert sku in skus;
      SkusSynthesizedCreate(t, vs, kvmOut, init);
      SkusSynthesizedOnlyWithin(t, vs, kvmOut, init);
      assert SameAt(t, r, sku);
      SkuSynthesizedFrame(r, vs, kvmOut, sku);
      forall x | x in skus ensures IsDir(SkusSynthesized(t, vs, kvmOut, skus), kvmOut + [Name(x)]) {
        if x in init {
          SkuKeepsDirs(r, vs, kvmOut, sku, Name(x));
        } else {
          assert x == sku;
        }
      }
    }
  }

  /** Of two prefixes of one path, one is a prefix of the other. */
  lemma PrefixesNested(a: Path, b: Path, x: Path)
    ensures a <= x && b <= x ==> a <= b || b <= a
  {
    if a <= x && b <= x && |a| <= |b| {
      assert a == x[..|a|] && b[..|a|] == x[..|a|];
    }
  }

  /** `generate_vs_hwskus`, for a device tree and a platform directory
      neither inside the other: nothing outside the platform directory
      changes, and every SKU directory three levels down the device tree,
      under a vendor and a platform directory and with no excluded marker in
      its name, is a directory of the platform under its own name
      afterwards. */
  lemma VsHwskusGeneratedSpec(t: Tree, device: Path, output: Path, vs: Path)
    requires !(output + [KvmPlatform] <= device) && !(device <= output + [KvmPlatform])
    ensures OnlyWithin(t, VsHwskusGenerated(t, device, output, vs), output + [KvmPlatform])
    ensures forall x :: IsHwskuDir(t, device, x) ==>
              IsDir(VsHwskusGenerated(t, device, output, vs), output + [KvmPlatform] + [Name(x)])
  {
    var kvmOut := output + [KvmPlatform];
    var skus := HwskuDirs(t, device);
    SkusSynthesizedOnlyWithin(t, vs, kvmOut, skus);
    forall x | x in skus ensures IsDir(t, x) && !(kvmOut <= x) {
      HwskuDirsMembers(t, device, x);
      assert device <= x;
      PrefixesNested(kvmOut, device, x);
    }
    SkusSynthesizedCreate(t, vs, kvmOut, skus);
    forall x | IsHwskuDir(t, device, x) ensures x in skus {
      HwskuDirsMembers(t, device, x);
    }
  }
}
