/** The per-directory steps of the virtual-switch device-data generator
    (`generate_device_data.py`), as functions from the filesystem before a
    step to the filesystem after it: copying the VS profile templates,
    deriving the lane and core maps from `port_config.ini`, appending the
    `Cpu0` sentinels, and removing a file. */
module DeviceData {
  import opened Text
  import opened FileTree
  import opened PortConfig

  /** The platform directory the VS SKUs are synthesised into. */
  const KvmPlatform: string := "x86_64-kvm_x86_64-r0"

  /** Markers that exclude a SKU directory when they occur in its name. */
  const ExcludedMarkers: set<string> := {"plugins", "led-code", "sonic_platform"}

  const PortConfigName: string := "port_config.ini"
  const LaneMapName: string := "lanemap.ini"
  const CoreMapName: string := "coreportindexmap.ini"
  const ContextConfigName: string := "context_config.json"
  const AsicConfName: string := "asic.conf"
  const ChassisDbName: string := "chassisdb.conf"

  /** The sentinel records a chassis SKU gets at the end of its maps. */
  const LaneSentinel: string := "Cpu0:999\n"
  const CoreSentinel: string := "Cpu0:0,0\n"

  /** The ASIC subdirectories of a multi-ASIC SKU, in the order visited. */
  const AsicSubdirs: seq<string> := ["0", "1", "2"]

  /** One profile template and the name it is copied to. */
  datatype ProfileCopy = ProfileCopy(source: string, target: string)

  /** The two profiles every directory gets. */
  const BaseProfiles: seq<ProfileCopy> :=
    [ProfileCopy("sai.vs_profile", "sai.profile"),
     ProfileCopy("fabriclanemap_vs.ini", "fabriclanemap.ini")]

  /** The three vendor profiles only a SKU's top directory gets. */
  const VendorProfiles: seq<ProfileCopy> :=
    [ProfileCopy("sai_mlnx.vs_profile", "sai_mlnx.profile"),
     ProfileCopy("sai_vpp.vs_profile", "sai_vpp.profile"),
     ProfileCopy("pai.vs_profile", "pai.profile")]

  /** The copies `copy_vs_profiles` makes, with or without the vendor ones. */
  function ProfileCopies(full: bool): seq<ProfileCopy>
  {
    if full then BaseProfiles + VendorProfiles else BaseProfiles
  }

  /** `path.name` */
  function Name(p: Path): string
  {
    if p == [] then "" else p[|p| - 1]
  }

  /** `path.parent` */
  function Parent(p: Path): Path
  {
    if p == [] then [] else p[..|p| - 1]
  }

  // ---------------------------------------------------------------------
  // copy_vs_profiles
  // ---------------------------------------------------------------------

  /** The copies made in order: each template that is a file is copied over
      its target in `dest`; a missing template is skipped. */
  function ProfilesCopied(t: Tree, vs: Path, dest: Path, copies: seq<ProfileCopy>): Tree
  {
    if copies == [] then t
    else
      var u := ProfilesCopied(t, vs, dest, copies[..|copies| - 1]);
      var c := copies[|copies| - 1];
      if IsFile(u, vs + [c.source]) then CopyFile(u, vs + [c.source], dest + [c.target]) else u
  }

  /** The paths a list of copies may write. */
  function ProfileTargets(dest: Path, copies: seq<ProfileCopy>): set<Path>
  {
    set k | 0 <= k < |copies| :: dest + [copies[k].target]
  }

  /** Copies whose targets are distinct and never a template's name, so no
      copy disturbs another. */
  predicate IndependentCopies(copies: seq<ProfileCopy>)
  {
    && (forall i, j :: 0 <= i < j < |copies| ==> copies[i].target != copies[j].target)
    && (forall i, j :: 0 <= i < |copies| && 0 <= j < |copies| ==> copies[i].target != copies[j].source)
  }

  lemma ProfileCopiesIndependent(full: bool)
    ensures IndependentCopies(ProfileCopies(full))
  {
    var cs := ProfileCopies(full);
    // Targets and templates never share a length; the two targets of
    // length 11 differ in their first letter.
    forall i, j | 0 <= i < |cs| && 0 <= j < |cs|
      ensures |cs[i].target| != |cs[j].source|
      ensures i != j ==> cs[i].target != cs[j].target
    {
      if i != j && |cs[i].target| == |cs[j].target| {
        assert cs[i].target[0] != cs[j].target[0];
      }
    }
  }

  /** One more copy adds its target to the paths the copies may write. */
  lemma ProfileTargetsSnoc(dest: Path, copies: seq<ProfileCopy>)
    requires copies != []
    ensures ProfileTargets(dest, copies) ==
              ProfileTargets(dest, copies[..|copies| - 1]) + {dest + [copies[|copies| - 1].target]}
  {
    var init := copies[..|copies| - 1];
    assert forall k :: 0 <= k < |init| ==> init[k] == copies[k];
  }

  /** The facts one copy relies on: its template and target differ from
      every earlier copy's target. */
  lemma LastCopyApart(dest: Path, vs: Path, copies: seq<ProfileCopy>)
    requires IndependentCopies(copies) && copies != []
    ensures var init, c := copies[..|copies| - 1], copies[|copies| - 1];
            && IndependentCopies(init)
            && forall k :: 0 <= k < |init| ==>
                 init[k] == copies[k]
                 && vs + [c.source] != dest + [init[k].target]
                 && dest + [c.target] != dest + [init[k].target]
  {
    var init, c := copies[..|copies| - 1], copies[|copies| - 1];
    var src, dst := vs + [c.source], dest + [c.target];
    forall k | 0 <= k < |init|
      ensures init[k] == copies[k]
      ensures src != dest + [init[k].target] && dst != dest + [init[k].target]
    {
      assert (dest + [init[k].target])[|dest|] == init[k].target;
      assert src[|src| - 1] == c.source;
      assert dst[|dest|] == c.target;
    }
  }

  /** Copying profiles changes nothing but the copies' targets. */
  lemma {:induction false} ProfilesCopiedFrame(t: Tree, vs: Path, dest: Path, copies: seq<ProfileCopy>)
    ensures forall q :: q !in ProfileTargets(dest, copies) ==>
              SameAt(t, ProfilesCopied(t, vs, dest, copies), q)
  {
    if copies != [] {
      ProfilesCopiedFrame(t, vs, dest, copies[..|copies| - 1]);
      ProfileTargetsSnoc(dest, copies);
    }
  }

  /** Each copy whose template exists leaves the template's text at its
      target; a copy whose template is missing leaves its target alone. */
  lemma {:induction false} ProfilesCopiedContent(t: Tree, vs: Path, dest: Path, copies: seq<ProfileCopy>)
    requires IndependentCopies(copies)
    ensures forall k :: 0 <= k < |copies| && IsFile(t, vs + [copies[k].source]) ==>
              var u := ProfilesCopied(t, vs, dest, copies);
              IsFile(u, dest + [copies[k].target])
              && u[dest + [copies[k].target]].content == t[vs + [copies[k].source]].content
    ensures forall k :: 0 <= k < |copies| && !IsFile(t, vs + [copies[k].source]) ==>
              SameAt(t, ProfilesCopied(t, vs, dest, copies), dest + [copies[k].target])
  {
    if copies != [] {
      var init, c := copies[..|copies| - 1], copies[|copies| - 1];
      LastCopyApart(dest, vs, copies);
      ProfilesCopiedContent(t, vs, dest, init);
      ProfilesCopiedFrame(t, vs, dest, init);
      forall k | 0 <= k < |init| ensures dest + [init[k].target] in ProfileTargets(dest, init) { }
      assert SameAt(t, ProfilesCopied(t, vs, dest, init), vs + [c.source]) by {
        assert vs + [c.source] !in ProfileTargets(dest, init);
      }
    }
  }

  /** Each copy whose template exists leaves the template's text at its
      target; a copy whose template is missing leaves its target alone; and
      nothing but the targets changes. */
  lemma ProfilesCopiedSpec(t: Tree, vs: Path, dest: Path, copies: seq<ProfileCopy>)
    requires IndependentCopies(copies)
    ensures forall k :: 0 <= k < |copies| && IsFile(t, vs + [copies[k].source]) ==>
              var u := ProfilesCopied(t, vs, dest, copies);
              IsFile(u, dest + [copies[k].target])
              && u[dest + [copies[k].target]].content == t[vs + [copies[k].source]].content
    ensures forall k :: 0 <= k < |copies| && !IsFile(t, vs + [copies[k].source]) ==>
              SameAt(t, ProfilesCopied(t, vs, dest, copies), dest + [copies[k].target])
    ensures forall q :: q !in ProfileTargets(dest, copies) ==>
              SameAt(t, ProfilesCopied(t, vs, dest, copies), q)
  {
    ProfilesCopiedContent(t, vs, dest, copies);
    ProfilesCopiedFrame(t, vs, dest, copies);
  }

  /** Every path a copy writes is strictly inside the destination. */
  lemma ProfileTargetsBelow(dest: Path, copies: seq<ProfileCopy>, q: Path)
    requires !(dest < q)
    ensures q !in ProfileTargets(dest, copies)
  {
    forall k | 0 <= k < |copies| ensures q != dest + [copies[k].target] {
      assert dest < dest + [copies[k].target];
    }
  }

  /** Copying profiles changes nothing outside the destination directory, nor
      the directory itself. */
  lemma ProfilesCopiedOnlyBelow(t: Tree, vs: Path, dest: Path, full: bool)
    ensures OnlyBelow(t, ProfilesCopied(t, vs, dest, ProfileCopies(full)), dest)
  {
    ProfileCopiesIndependent(full);
    ProfilesCopiedSpec(t, vs, dest, ProfileCopies(full));
    forall q | !(dest < q) ensures SameAt(t, ProfilesCopied(t, vs, dest, ProfileCopies(full)), q) {
      ProfileTargetsBelow(dest, ProfileCopies(full), q);
    }
  }

  /** A directory of a multi-ASIC SKU gets at most `sai.profile` and
      `fabriclanemap.ini`; the top directory of a SKU also the three vendor
      profiles. */
  lemma ProfileTargetsNamed(dest: Path, q: Path)
    ensures q in ProfileTargets(dest, ProfileCopies(false)) <==>
              q == dest + ["sai.profile"] || q == dest + ["fabriclanemap.ini"]
    ensures q in ProfileTargets(dest, ProfileCopies(true)) <==>
              q == dest + ["sai.profile"] || q == dest + ["fabriclanemap.ini"]
              || q == dest + ["sai_mlnx.profile"] || q == dest + ["sai_vpp.profile"]
              || q == dest + ["pai.profile"]
  {
    var reduced, full := ProfileCopies(false), ProfileCopies(true);
    assert dest + [full[0].target] == dest + ["sai.profile"];
    assert dest + [full[1].target] == dest + ["fabriclanemap.ini"];
    assert dest + [full[2].target] == dest + ["sai_mlnx.profile"];
    assert dest + [full[3].target] == dest + ["sai_vpp.profile"];
    assert dest + [full[4].target] == dest + ["pai.profile"];
  }

  // ---------------------------------------------------------------------
  // process_port_config
  // ---------------------------------------------------------------------

  /** The filesystem after `process_port_config`, and the counter it returns. */
  datatype PortConfigRun = PortConfigRun(tree: Tree, next: nat)

  /** `process_port_config(portConfig, dest, start)`: a missing table changes
      nothing and returns `start`; otherwise the table is parsed, each
      non-empty record list is written to its map in `dest`, and the counter
      after the last data row is returned. */
  function PortConfigProcessed(t: Tree, portConfig: Path, dest: Path, start: nat): PortConfigRun
  {
    if !IsFile(t, portConfig) then PortConfigRun(t, start)
    else
      var p := Parse(SplitLines(t[portConfig].content), start);
      var t1 := if p.lanes != [] then WriteText(t, dest + [LaneMapName], LaneMapText(p.lanes)) else t;
      var t2 := if p.cores != [] then WriteText(t1, dest + [CoreMapName], CoreMapText(p.cores)) else t1;
      PortConfigRun(t2, p.next)
  }

  /** The lines of the table at `portConfig`. */
  function TableLines(t: Tree, portConfig: Path): seq<string>
    requires IsFile(t, portConfig)
  {
    SplitLines(t[portConfig].content)
  }

  /** Processing a table: with no table nothing changes and the counter is
      returned as given; otherwise the counter advances by the number of data
      rows, a map is written exactly when it has records (so no empty map
      file is ever created, and an old map without new records is left as it
      was), and nothing else changes. */
  lemma PortConfigProcessedSpec(t: Tree, portConfig: Path, dest: Path, start: nat)
    ensures !IsFile(t, portConfig) ==> PortConfigProcessed(t, portConfig, dest, start) == PortConfigRun(t, start)
    ensures IsFile(t, portConfig) ==>
              var r, p := PortConfigProcessed(t, portConfig, dest, start), Parse(TableLines(t, portConfig), start);
              && r.next == start + |DataRows(TableLines(t, portConfig))|
              && (p.lanes == [] ==> SameAt(t, r.tree, dest + [LaneMapName]))
              && (p.lanes != [] ==>
                    IsFile(r.tree, dest + [LaneMapName])
                    && r.tree[dest + [LaneMapName]].content == LaneMapText(p.lanes))
              && (p.cores == [] ==> SameAt(t, r.tree, dest + [CoreMapName]))
              && (p.cores != [] ==>
                    IsFile(r.tree, dest + [CoreMapName])
                    && r.tree[dest + [CoreMapName]].content == CoreMapText(p.cores))
    ensures forall q :: q != dest + [LaneMapName] && q != dest + [CoreMapName] ==>
              SameAt(t, PortConfigProcessed(t, portConfig, dest, start).tree, q)
  {
    if IsFile(t, portConfig) {
      var lines := TableLines(t, portConfig);
      NumberRowsCounter(DataRows(lines), ColumnCount(lines), start);
      assert dest + [LaneMapName] != dest + [CoreMapName] by {
        assert (dest + [LaneMapName])[|dest|] == LaneMapName;
      }
    }
  }

  /** Processing a table changes nothing outside the destination directory. */
  lemma PortConfigProcessedOnlyBelow(t: Tree, portConfig: Path, dest: Path, start: nat)
    ensures OnlyBelow(t, PortConfigProcessed(t, portConfig, dest, start).tree, dest)
  {
    PortConfigProcessedSpec(t, portConfig, dest, start);
  }

  // ---------------------------------------------------------------------
  // append_cpu0 and remove_if_exists
  // ---------------------------------------------------------------------

  /** `append_cpu0(dest)`: each map in `dest` that is a file gets its sentinel
      record appended. */
  function Cpu0Appended(t: Tree, dest: Path): Tree
  {
    var lane, core := dest + [LaneMapName], dest + [CoreMapName];
    var t1 := if IsFile(t, lane) then AppendText(t, lane, LaneSentinel) else t;
    if IsFile(t1, core) then AppendText(t1, core, CoreSentinel) else t1
  }

  /** `append_cpu0` never creates a file: the same paths exist afterwards,
      each map that is a file ends with its sentinel, and nothing else
      changes (a directory at a map's path included). */
  lemma Cpu0AppendedSpec(t: Tree, dest: Path)
    ensures var u := Cpu0Appended(t, dest);
      && u.Keys == t.Keys
      && (IsFile(t, dest + [LaneMapName]) ==>
            IsFile(u, dest + [LaneMapName])
            && u[dest + [LaneMapName]].content == t[dest + [LaneMapName]].content + LaneSentinel)
      && (IsFile(t, dest + [CoreMapName]) ==>
            IsFile(u, dest + [CoreMapName])
            && u[dest + [CoreMapName]].content == t[dest + [CoreMapName]].content + CoreSentinel)
      && forall q :: (q != dest + [LaneMapName] || !IsFile(t, q)) && (q != dest + [CoreMapName] || !IsFile(t, q)) ==>
           SameAt(t, u, q)
  {
    assert dest + [LaneMapName] != dest + [CoreMapName] by {
      assert (dest + [LaneMapName])[|dest|] == LaneMapName;
    }
  }

  /** `append_cpu0` changes only entries of `dest`. */
  lemma Cpu0AppendedOnlyBelow(t: Tree, dest: Path)
    ensures OnlyBelow(t, Cpu0Appended(t, dest), dest)
  {
    Cpu0AppendedSpec(t, dest);
    assert dest < dest + [LaneMapName] && dest < dest + [CoreMapName];
  }

  /** `remove_if_exists(p)`: a file at `p` is removed; anything else stays. */
  function Removed(t: Tree, p: Path): Tree
  {
    if IsFile(t, p) then Unlink(t, p) else t
  }

  /** After `remove_if_exists(p)` there is no file at `p`: a file there is
      gone altogether, anything else at `p` is kept, and nothing else
      changes. */
  lemma RemovedSpec(t: Tree, p: Path)
    ensures !IsFile(Removed(t, p), p)
    ensures IsFile(t, p) ==> p !in Removed(t, p)
    ensures !IsFile(t, p) ==> Removed(t, p) == t
    ensures forall q :: q != p ==> SameAt(t, Removed(t, p), q)
  {
  }
}
