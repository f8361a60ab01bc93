/** The generator's functions as they run: one `DeviceTree` object holds the
    filesystem, and each function of `generate_device_data.py` is a method
    that reads or updates it step by step, proved to end in the state (and
    with the result) its specification function gives. */
module Generator {
  import opened Text
  import opened FileTree
  import opened PortConfig
  import opened DeviceData
  import opened SkuListing
  import opened VsHwsku

  class DeviceTree {
    /** Every path that exists, with what lives there. */
    var entries: Tree

    constructor (t: Tree)
      ensures entries == t
    {
      entries := t;
    }

    /** `copy_vs_profiles(vs_dir, dest_dir, full)` */
    method CopyVsProfiles(vsDir: Path, destDir: Path, full: bool)
      modifies this
      ensures entries == ProfilesCopied(old(entries), vsDir, destDir, ProfileCopies(full))
    {
      var copies := BaseProfiles;
      if full {
        copies := copies + VendorProfiles;
      }
      var k := 0;
      while k < |copies|
        invariant k <= |copies|
        invariant entries == ProfilesCopied(old(entries), vsDir, destDir, copies[..k])
      {
        var src := vsDir + [copies[k].source];
        if IsFile(entries, src) {
          entries := CopyFile(entries, src, destDir + [copies[k].target]);
        }
        assert copies[..k + 1][..k] == copies[..k];
        k := k + 1;
      }
      assert copies[..k] == copies;
    }

    /** `process_port_config(port_config, dest_dir, start_idx)`: the table
        is read and parsed, each non-empty record list is written out, and
        the counter after the last data row is returned. */
    method ProcessPortConfig(portConfig: Path, destDir: Path, startIdx: nat) returns (i: nat)
      modifies this
      ensures PortConfigRun(entries, i) == PortConfigProcessed(old(entries), portConfig, destDir, startIdx)
    {
      if !IsFile(entries, portConfig) {
        return startIdx;
      }
      var allLines := SplitLines(entries[portConfig].content);
      var lanemapEntries, coremapEntries;
      lanemapEntries, coremapEntries, i := ParsePortConfig(allLines, startIdx);
      if lanemapEntries != [] {
        entries := WriteText(entries, destDir + [LaneMapName], LaneMapText(lanemapEntries));
      }
      if coremapEntries != [] {
        entries := WriteText(entries, destDir + [CoreMapName], CoreMapText(coremapEntries));
      }
    }

    /** `append_cpu0(dest_dir)` */
    method AppendCpu0(destDir: Path)
      modifies this
      ensures entries == Cpu0Appended(old(entries), destDir)
    {
      var lanemap := destDir + [LaneMapName];
      if IsFile(entries, lanemap) {
        entries := AppendText(entries, lanemap, LaneSentinel);
      }
      var coremap := destDir + [CoreMapName];
      if IsFile(entries, coremap) {
        entries := AppendText(entries, coremap, CoreSentinel);
      }
    }

    /** `remove_if_exists(path)` */
    method RemoveIfExists(path: Path)
      modifies this
      ensures entries == Removed(old(entries), path)
    {
      if IsFile(entries, path) {
        entries := Unlink(entries, path);
      }
    }

    /** `sorted(path.iterdir())`, by name: the least remaining name is taken
        until none is left. */
    method SortedChildren(path: Path) returns (names: seq<string>)
      ensures names == Listing(entries, path)
    {
      ghost var children := Children(entries, path);
      var rest := Children(entries, path);
      names := [];
      while rest != {}
        invariant forall x :: x in names ==> x in children
        invariant forall x :: x in rest ==> x in children
        invariant forall x :: x in children ==> x in names || x in rest
        invariant forall i, j :: 0 <= i < j < |names| ==> StrLess(names[i], names[j])
        invariant forall i, x :: 0 <= i < |names| && x in rest ==> StrLess(names[i], x)
        decreases |rest|
      {
        LeastExists(rest);
        var m :| m in rest && forall x :: x in rest && x != m ==> StrLess(m, x);
        forall i, x | 0 <= i < |names| && x in rest - {m}
          ensures StrLess((names + [m])[i], x)
        {
          assert (names + [m])[i] == names[i];
        }
        names := names + [m];
        rest := rest - {m};
      }
      SortedListingUnique(names, Listing(entries, path), children);
    }

    /** The innermost loop of `collect_hwsku_dirs`, over one platform. */
    method PlatformHwskuDirs(platformPath: Path) returns (dirs: seq<Path>)
      ensures dirs == PlatformSkus(entries, platformPath, Listing(entries, platformPath))
    {
      var names := SortedChildren(platformPath);
      dirs := [];
      for k := 0 to |names|
        invariant dirs == PlatformSkus(entries, platformPath, names[..k])
      {
        assert names[..k + 1][..k] == names[..k];
        var hwskuSrc := platformPath + [names[k]];
        if Excluded(Name(hwskuSrc)) {
          continue;
        }
        if !IsDir(entries, hwskuSrc) {
          continue;
        }
        dirs := dirs + [hwskuSrc];
      }
      assert names[..|names|] == names;
    }

    /** The middle loop of `collect_hwsku_dirs`, over one vendor. */
    method VendorHwskuDirs(vendorPath: Path) returns (dirs: seq<Path>)
      ensures dirs == VendorSkus(entries, vendorPath, Listing(entries, vendorPath))
    {
      var names := SortedChildren(vendorPath);
      dirs := [];
      for k := 0 to |names|
        invariant dirs == VendorSkus(entries, vendorPath, names[..k])
      {
        assert names[..k + 1][..k] == names[..k];
        var platformPath := vendorPath + [names[k]];
        if !IsDir(entries, platformPath) {
          continue;
        }
        var found := PlatformHwskuDirs(platformPath);
        dirs := dirs + found;
      }
      assert names[..|names|] == names;
    }

    /** `collect_hwsku_dirs(device_dir)` */
    method CollectHwskuDirs(deviceDir: Path) returns (hwskuDirs: seq<Path>)
      ensures hwskuDirs == HwskuDirs(entries, deviceDir)
    {
      var names := SortedChildren(deviceDir);
      hwskuDirs := [];
      for k := 0 to |names|
        invariant hwskuDirs == DeviceSkus(entries, deviceDir, names[..k])
      {
        assert names[..k + 1][..k] == names[..k];
        var vendorPath := deviceDir + [names[k]];
        if !IsDir(entries, vendorPath) {
          continue;
        }
        var found := VendorHwskuDirs(vendorPath);
        hwskuDirs := hwskuDirs + found;
      }
      assert names[..|names|] == names;
    }

    /** The steps `generate_vs_hwskus` takes for a new SKU before its ASIC
        loop; the counter the top table returns is discarded. */
    method BuildSkuTop(vsDir: Path, hwskuDir: Path, hwskuDst: Path, hasChassisdb: bool)
      modifies this
      ensures entries == SkuTop(old(entries), vsDir, hwskuDir, hwskuDst, hasChassisdb)
    {
      var platformPath := Parent(hwskuDir);
      entries := CopyTree(entries, hwskuDir, hwskuDst);
      var asicConf := platformPath + [AsicConfName];
      if IsFile(entries, asicConf) {
        entries := CopyFile(entries, asicConf, hwskuDst + [AsicConfName]);
      }
      CopyVsProfiles(vsDir, hwskuDst, true);
      var _ := ProcessPortConfig(hwskuDst + [PortConfigName], hwskuDst, if hasChassisdb then 1 else 0);
      RemoveIfExists(hwskuDst + [ContextConfigName]);
      if hasChassisdb {
        AppendCpu0(hwskuDst);
      }
    }

    /** One pass of the ASIC loop over `subdir` with counter `i`, the inline
        sentinels included. */
    method ProcessAsicSubdir(vsDir: Path, subdir: Path, hasChassisdb: bool, i: nat) returns (next: nat)
      modifies this
      ensures PortConfigRun(entries, next) == AsicStep(old(entries), vsDir, subdir, hasChassisdb, i)
    {
      if !IsDir(entries, subdir) {
        return i;
      }
      CopyVsProfiles(vsDir, subdir, false);
      RemoveIfExists(subdir + [ContextConfigName]);
      next := ProcessPortConfig(subdir + [PortConfigName], subdir, i);
      if hasChassisdb {
        var lanemap := subdir + [LaneMapName];
        if IsFile(entries, lanemap) {
          entries := AppendText(entries, lanemap, LaneSentinel);
          next := next + 1;
        }
        var coremap := subdir + [CoreMapName];
        if IsFile(entries, coremap) {
          entries := AppendText(entries, coremap, CoreSentinel);
        }
      }
    }

    /** The body of `generate_vs_hwskus`'s loop for SKU directory
        `hwskuDir`. */
    method SynthesizeHwsku(vsDir: Path, kvmOut: Path, hwskuDir: Path)
      modifies this
      ensures entries == SkuSynthesized(old(entries), vsDir, kvmOut, hwskuDir)
    {
      var platformPath := Parent(hwskuDir);
      var hasChassisdb := IsFile(entries, platformPath + [ChassisDbName]);
      var hwskuDst := kvmOut + [Name(hwskuDir)];
      if IsDir(entries, hwskuDst) {
        CopyVsProfiles(vsDir, hwskuDst, true);
        return;
      }
      BuildSkuTop(vsDir, hwskuDir, hwskuDst, hasChassisdb);
      ghost var top := entries;
      var i: nat := if hasChassisdb then 1 else 0;
      for k := 0 to |AsicSubdirs|
        invariant PortConfigRun(entries, i) == AsicsProcessed(top, vsDir, hwskuDst, hasChassisdb, Seed(hasChassisdb), AsicSubdirs[..k])
      {
        assert AsicSubdirs[..k + 1][..k] == AsicSubdirs[..k];
        i := ProcessAsicSubdir(vsDir, hwskuDst + [AsicSubdirs[k]], hasChassisdb, i);
      }
      assert AsicSubdirs[..|AsicSubdirs|] == AsicSubdirs;
    }

    /** `generate_vs_hwskus(device_dir, output_dir, vs_dir)` */
    method GenerateVsHwskus(deviceDir: Path, outputDir: Path, vsDir: Path)
      modifies this
      ensures entries == VsHwskusGenerated(old(entries), deviceDir, outputDir, vsDir)
    {
      var kvmOut := outputDir + [KvmPlatform];
      var hwskuDirs := CollectHwskuDirs(deviceDir);
      for k := 0 to |hwskuDirs|
        invariant entries == SkusSynthesized(old(entries), vsDir, kvmOut, hwskuDirs[..k])
      {
        assert hwskuDirs[..k + 1][..k] == hwskuDirs[..k];
        SynthesizeHwsku(vsDir, kvmOut, hwskuDirs[k]);
      }
      assert hwskuDirs[..|hwskuDirs|] == hwskuDirs;
    }
  }
}
