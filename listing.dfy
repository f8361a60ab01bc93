/** Directory listings in `sorted(path.iterdir())` order, and the SKU
    directories `collect_hwsku_dirs` finds three levels below the device
    tree (`device/<vendor>/<platform>/<sku>`). */
module SkuListing {
  import opened Text
  import opened FileTree
  import opened DeviceData

  // ---------------------------------------------------------------------
  // sorted(iterdir())
  // ---------------------------------------------------------------------

  /** The names of the entries directly inside `p`. */
  function Children(t: Tree, p: Path): set<string>
  {
    set q | q in t && |q| == |p| + 1 && q[..|p|] == p :: q[|p|]
  }

  lemma ChildrenSpec(t: Tree, p: Path, n: string)
    ensures n in Children(t, p) <==> p + [n] in t
  {
    if p + [n] in t {
      assert (p + [n])[..|p|] == p && (p + [n])[|p|] == n;
    }
    if n in Children(t, p) {
      var q :| q in t && |q| == |p| + 1 && q[..|p|] == p && q[|p|] == n;
      assert q == p + [n];
    }
  }

  /** `names` lists the set `s` in strictly increasing order, as `sorted()`
      lists distinct names. */
  ghost predicate IsSortedListing(names: seq<string>, s: set<string>)
  {
    && (forall i, j :: 0 <= i < j < |names| ==> StrLess(names[i], names[j]))
    && (forall x :: x in names <==> x in s)
  }

  lemma {:induction false} StrLessAsymmetric(a: string, b: string)
    ensures StrLess(a, b) ==> !StrLess(b, a)
    decreases |a|
  {
    if a != [] && b != [] && a[0] == b[0] {
      StrLessAsymmetric(a[1..], b[1..]);
    }
  }

  /** The first name of a sorted listing is below every other name. */
  lemma FirstIsLeast(names: seq<string>, s: set<string>, z: string)
    requires IsSortedListing(names, s) && names != [] && z in s
    ensures z == names[0] || StrLess(names[0], z)
  {
    var j :| 0 <= j < |names| && names[j] == z;
  }

  /** Only the empty set has the empty listing. */
  lemma ListingEmpty(names: seq<string>, s: set<string>)
    requires IsSortedListing(names, s)
    ensures names == [] <==> s == {}
  {
    if names != [] {
      assert names[0] in s;
    }
  }

  /** A set has only one sorted listing. */
  lemma {:induction false} SortedListingUnique(xs: seq<string>, ys: seq<string>, s: set<string>)
    requires IsSortedListing(xs, s) && IsSortedListing(ys, s)
    ensures xs == ys
    decreases |xs|
  {
    if xs != [] && ys != [] {
      assert xs[0] in s && ys[0] in s;
      FirstIsLeast(xs, s, ys[0]);
      FirstIsLeast(ys, s, xs[0]);
      StrLessAsymmetric(xs[0], ys[0]);
      var m := xs[0];
      var s' := s - {m};
      forall x ensures x in xs[1..] <==> x in s' {
        if x in xs[1..] {
          var j :| 1 <= j < |xs| && xs[j] == x;
          assert StrLess(xs[0], xs[j]);
          StrLessIrreflexive(x);
        }
        if x in s' {
          var j :| 0 <= j < |xs| && xs[j] == x;
          assert j != 0;
          assert xs[1..][j - 1] == x;
        }
      }
      forall x ensures x in ys[1..] <==> x in s' {
        if x in ys[1..] {
          var j :| 1 <= j < |ys| && ys[j] == x;
          assert StrLess(ys[0], ys[j]);
          StrLessIrreflexive(x);
        }
        if x in s' {
          var j :| 0 <= j < |ys| && ys[j] == x;
          assert j != 0;
          assert ys[1..][j - 1] == x;
        }
      }
      SortedListingUnique(xs[1..], ys[1..], s');
      assert xs == [m] + xs[1..] && ys == [m] + ys[1..];
    } else {
      ListingEmpty(xs, s);
      ListingEmpty(ys, s);
    }
  }

  /** Every finite set of names has a sorted listing. */
  lemma {:induction false} SortedListingExists(s: set<string>)
    ensures exists names :: IsSortedListing(names, s)
    decreases |s|
  {
    if s == {} {
      assert IsSortedListing([], s);
    } else {
      LeastExists(s);
      var m :| m in s && forall x :: x in s && x != m ==> StrLess(m, x);
      SortedListingExists(s - {m});
      var rest :| IsSortedListing(rest, s - {m});
      var names := [m] + rest;
      forall i, j | 0 <= i < j < |names| ensures StrLess(names[i], names[j]) {
        if i > 0 {
          assert names[i] == rest[i - 1] && names[j] == rest[j - 1];
        } else {
          assert names[j] == rest[j - 1];
          assert names[j] in s - {m};
        }
      }
      forall x ensures x in names <==> x in s {
        if x in s && x != m {
          assert x in rest;
        }
      }
      assert IsSortedListing(names, s);
    }
  }

  /** `sorted(p.iterdir())`, by name. */
  ghost function Listing(t: Tree, p: Path): (names: seq<string>)
    ensures IsSortedListing(names, Children(t, p))
  {
    SortedListingExists(Children(t, p));
    var names :| IsSortedListing(names, Children(t, p));
    names
  }

  // ---------------------------------------------------------------------
  // collect_hwsku_dirs
  // ---------------------------------------------------------------------

  /** `any(excl in name for excl in EXCLUDED_DIRS)` */
  predicate Excluded(name: string)
  {
    exists m :: m in ExcludedMarkers && Contains(name, m)
  }

  /** A SKU directory `collect_hwsku_dirs` keeps: a directory whose name
      contains no excluded marker. */
  predicate IsSku(t: Tree, p: Path)
  {
    !Excluded(Name(p)) && IsDir(t, p)
  }

  /** The SKU directories of one platform, in listing order `names`. */
  function PlatformSkus(t: Tree, platform: Path, names: seq<string>): seq<Path>
  {
    if names == [] then []
    else
      var init := PlatformSkus(t, platform, names[..|names| - 1]);
      var p := platform + [names[|names| - 1]];
      if IsSku(t, p) then init + [p] else init
  }

  /** The SKU directories of one vendor's platforms, in listing order. */
  ghost function VendorSkus(t: Tree, vendor: Path, names: seq<string>): seq<Path>
  {
    if names == [] then []
    else
      var init := VendorSkus(t, vendor, names[..|names| - 1]);
      var p := vendor + [names[|names| - 1]];
      if IsDir(t, p) then init + PlatformSkus(t, p, Listing(t, p)) else init
  }

  /** The SKU directories of the device tree's vendors, in listing order. */
  ghost function DeviceSkus(t: Tree, device: Path, names: seq<string>): seq<Path>
  {
    if names == [] then []
    else
      var init := DeviceSkus(t, device, names[..|names| - 1]);
      var p := device + [names[|names| - 1]];
      if IsDir(t, p) then init + VendorSkus(t, p, Listing(t, p)) else init
  }

  /** `collect_hwsku_dirs(device)` */
  ghost function HwskuDirs(t: Tree, device: Path): seq<Path>
  {
    DeviceSkus(t, device, Listing(t, device))
  }

  /** A path `collect_hwsku_dirs(device)` reports: three levels below
      `device`, through a vendor directory and a platform directory, to a
      SKU directory. */
  ghost predicate IsHwskuDir(t: Tree, device: Path, x: Path)
  {
    && |x| == |device| + 3 && x[..|device|] == device
    && IsDir(t, x[..|device| + 1]) && IsDir(t, x[..|device| + 2]) && IsSku(t, x)
  }

  /** Python's `<` on paths: lexicographic on the components. */
  predicate PathLess(a: Path, b: Path)
    decreases |a|
  {
    if a == [] then b != []
    else if b == [] then false
    else if a[0] != b[0] then StrLess(a[0], b[0])
    else PathLess(a[1..], b[1..])
  }

  /** Paths in strictly increasing order. */
  ghost predicate Increasing(ps: seq<Path>)
  {
    forall i, j :: 0 <= i < j < |ps| ==> PathLess(ps[i], ps[j])
  }

  /** Two paths that agree up to `d` and then differ in a smaller name come
      first. */
  lemma {:induction false} PathLessAt(d: Path, x: Path, y: Path)
    requires |x| > |d| && |y| > |d| && x[..|d|] == d && y[..|d|] == d
    requires StrLess(x[|d|], y[|d|])
    ensures PathLess(x, y)
    decreases |d|
  {
    if d == [] {
      StrLessIrreflexive(x[0]);
    } else {
      assert x[0] == y[0];
      assert x[1..][..|d| - 1] == d[1..] && y[1..][..|d| - 1] == d[1..];
      PathLessAt(d[1..], x[1..], y[1..]);
    }
  }

  /** Concatenating a block of paths below name `b` after paths below
      smaller names keeps the order. */
  lemma BlocksIncreasing(d: Path, xs: seq<Path>, ys: seq<Path>, b: string)
    requires Increasing(xs) && Increasing(ys)
    requires forall x :: x in xs ==> |x| > |d| && x[..|d|] == d && StrLess(x[|d|], b)
    requires forall y :: y in ys ==> |y| > |d| && y[..|d|] == d && y[|d|] == b
    ensures Increasing(xs + ys)
  {
    var zs := xs + ys;
    forall i, j | 0 <= i < j < |zs| ensures PathLess(zs[i], zs[j]) {
      if j < |xs| {
        assert zs[i] == xs[i] && zs[j] == xs[j];
      } else if i >= |xs| {
        assert zs[i] == ys[i - |xs|] && zs[j] == ys[j - |xs|];
      } else {
        assert zs[i] == xs[i] && zs[j] == ys[j - |xs|];
        assert xs[i] in xs && ys[j - |xs|] in ys;
        PathLessAt(d, zs[i], zs[j]);
      }
    }
  }

  /** The SKUs of a platform are its SKU children whose names are listed. */
  lemma {:induction false} PlatformSkusMember(t: Tree, platform: Path, names: seq<string>, x: Path)
    ensures x in PlatformSkus(t, platform, names) <==>
              |x| == |platform| + 1 && x[..|platform|] == platform && x[|platform|] in names && IsSku(t, x)
  {
    if names != [] {
      var init, n := names[..|names| - 1], names[|names| - 1];
      PlatformSkusMember(t, platform, init, x);
      assert (platform + [n])[..|platform|] == platform;
      assert names == init + [n];
      if |x| == |platform| + 1 && x[..|platform|] == platform {
        assert x == platform + [x[|platform|]];
      }
    }
  }

  /** The SKUs of a platform come in increasing order when its names do. */
  lemma {:induction false} PlatformSkusIncreasing(t: Tree, platform: Path, names: seq<string>)
    requires forall i, j :: 0 <= i < j < |names| ==> StrLess(names[i], names[j])
    ensures Increasing(PlatformSkus(t, platform, names))
  {
    if names != [] {
      var init, n := names[..|names| - 1], names[|names| - 1];
      var xs := PlatformSkus(t, platform, init);
      PlatformSkusIncreasing(t, platform, init);
      var p := platform + [n];
      if IsSku(t, p) {
        forall x | x in xs ensures |x| > |platform| && x[..|platform|] == platform && StrLess(x[|platform|], n) {
          PlatformSkusMember(t, platform, init, x);
          var k :| 0 <= k < |init| && init[k] == x[|platform|];
          assert names[k] == init[k];
        }
        assert p[..|platform|] == platform;
        BlocksIncreasing(platform, xs, [p], n);
      }
    }
  }

  /** A platform's listing yields all its SKU directories. */
  lemma PlatformSkusAll(t: Tree, platform: Path, x: Path)
    ensures x in PlatformSkus(t, platform, Listing(t, platform)) <==>
              |x| == |platform| + 1 && x[..|platform|] == platform && IsSku(t, x)
  {
    PlatformSkusMember(t, platform, Listing(t, platform), x);
    if |x| == |platform| + 1 && x[..|platform|] == platform {
      ChildrenSpec(t, platform, x[|platform|]);
      assert x == platform + [x[|platform|]];
    }
  }

  /** The SKUs of a vendor lie in its listed platform directories. */
  lemma {:induction false} VendorSkusMember(t: Tree, vendor: Path, names: seq<string>, x: Path)
    ensures x in VendorSkus(t, vendor, names) <==>
              && |x| == |vendor| + 2 && x[..|vendor|] == vendor && x[|vendor|] in names
              && IsDir(t, x[..|vendor| + 1]) && IsSku(t, x)
  {
    if names != [] {
      var init, n := names[..|names| - 1], names[|names| - 1];
      var p := vendor + [n];
      VendorSkusMember(t, vendor, init, x);
      assert names == init + [n];
      if IsDir(t, p) {
        PlatformSkusAll(t, p, x);
      }
      if |x| == |vendor| + 2 {
        assert x[|vendor|] in names <==> x[|vendor|] in init || x[|vendor|] == n;
        ChildPrefix(vendor, n, x);
      }
    }
  }

  /** A path two levels below `vendor` lies below its child `n` exactly
      when it passes through `n`. */
  lemma ChildPrefix(vendor: Path, n: string, x: Path)
    requires |x| == |vendor| + 2
    ensures x[..|vendor| + 1] == vendor + [n] <==> x[..|vendor|] == vendor && x[|vendor|] == n
  {
    assert x[..|vendor| + 1] == x[..|vendor|] + [x[|vendor|]];
  }

  /** A vendor's listing yields all SKUs below its platform directories. */
  lemma VendorSkusAll(t: Tree, vendor: Path, x: Path)
    ensures x in VendorSkus(t, vendor, Listing(t, vendor)) <==>
              && |x| == |vendor| + 2 && x[..|vendor|] == vendor
              && IsDir(t, x[..|vendor| + 1]) && IsSku(t, x)
  {
    VendorSkusMember(t, vendor, Listing(t, vendor), x);
    if |x| == |vendor| + 2 && x[..|vendor|] == vendor {
      ChildrenSpec(t, vendor, x[|vendor|]);
      assert x[..|vendor| + 1] == vendor + [x[|vendor|]];
    }
  }

  /** The SKUs of the device tree lie in its listed vendor directories. */
  lemma {:induction false} DeviceSkusMember(t: Tree, device: Path, names: seq<string>, x: Path)
    ensures x in DeviceSkus(t, device, names) <==> IsHwskuDir(t, device, x) && x[|device|] in names
  {
    if names != [] {
      var init, n := names[..|names| - 1], names[|names| - 1];
      var v := device + [n];
      DeviceSkusMember(t, device, init, x);
      assert names == init + [n];
      VendorSkusAll(t, v, x);
      if |x| == |device| + 3 {
        assert x[..|device| + 1] == x[..|device|] + [x[|device|]];
        assert x[..|v|] == v <==> x[..|device|] == device && x[|device|] == n;
        assert x[..|v| + 1] == x[..|device| + 2];
      }
    }
  }

  /** `collect_hwsku_dirs` reports exactly the directories three levels down,
      below a vendor directory and a platform directory, whose names contain
      no excluded marker. */
  lemma HwskuDirsMembers(t: Tree, device: Path, x: Path)
    ensures x in HwskuDirs(t, device) <==> IsHwskuDir(t, device, x)
  {
    DeviceSkusMember(t, device, Listing(t, device), x);
    if IsHwskuDir(t, device, x) {
      ChildrenSpec(t, device, x[|device|]);
      assert x[..|device| + 1] == device + [x[|device|]];
    }
  }

  /** The SKUs of a vendor come in increasing order when its names do. */
  lemma {:induction false} VendorSkusIncreasing(t: Tree, vendor: Path, names: seq<string>)
    requires forall i, j :: 0 <= i < j < |names| ==> StrLess(names[i], names[j])
    ensures Increasing(VendorSkus(t, vendor, names))
  {
    if names != [] {
      var init, n := names[..|names| - 1], names[|names| - 1];
      var xs := VendorSkus(t, vendor, init);
      VendorSkusIncreasing(t, vendor, init);
      var p := vendor + [n];
      if IsDir(t, p) {
        var ys := PlatformSkus(t, p, Listing(t, p));
        PlatformSkusIncreasing(t, p, Listing(t, p));
        forall x | x in xs ensures |x| > |vendor| && x[..|vendor|] == vendor && StrLess(x[|vendor|], n) {
          VendorSkusMember(t, vendor, init, x);
          var k :| 0 <= k < |init| && init[k] == x[|vendor|];
          assert names[k] == init[k];
        }
        forall y | y in ys ensures |y| > |vendor| && y[..|vendor|] == vendor && y[|vendor|] == n {
          PlatformSkusAll(t, p, y);
          assert y[..|vendor|] == y[..|p|][..|vendor|];
          assert y[|vendor|] == y[..|p|][|vendor|];
        }
        BlocksIncreasing(vendor, xs, ys, n);
      }
    }
  }

  /** The SKUs of the device tree come in increasing order when the vendor
      names do. */
  lemma {:induction false} DeviceSkusIncreasing(t: Tree, device: Path, names: seq<string>)
    requires forall i, j :: 0 <= i < j < |names| ==> StrLess(names[i], names[j])
    ensures Increasing(DeviceSkus(t, device, names))
  {
    if names != [] {
      var init, n := names[..|names| - 1], names[|names| - 1];
      var xs := DeviceSkus(t, device, init);
      DeviceSkusIncreasing(t, device, init);
      var v := device + [n];
      if IsDir(t, v) {
        var ys := VendorSkus(t, v, Listing(t, v));
        VendorSkusIncreasing(t, v, Listing(t, v));
        forall x | x in xs ensures |x| > |device| && x[..|device|] == device && StrLess(x[|device|], n) {
          DeviceSkusMember(t, device, init, x);
          var k :| 0 <= k < |init| && init[k] == x[|device|];
          assert names[k] == init[k];
        }
        forall y | y in ys ensures |y| > |device| && y[..|device|] == device && y[|device|] == n {
          VendorSkusAll(t, v, y);
          assert y[..|device|] == y[..|v|][..|device|];
          assert y[|device|] == y[..|v|][|device|];
        }
        BlocksIncreasing(device, xs, ys, n);
      }
    }
  }

  /** `collect_hwsku_dirs` lists the SKUs in increasing path order: by
      vendor, then platform, then SKU name; in particular without
      duplicates. */
  lemma HwskuDirsIncreasing(t: Tree, device: Path)
    ensures Increasing(HwskuDirs(t, device))
  {
    DeviceSkusIncreasing(t, device, Listing(t, device));
  }
}
