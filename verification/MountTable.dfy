/**
 The mount records of the command layer beside the file system's own mount table. A
 record owns the partition view that was made for its mount; the view must outlive the
 mount, and must be given back once.
 */
module MountTable {
  import opened Collections

  const MAX_MOUNTS := 4

  type View = nat

  datatype Rec = Free | Used(dev: string, path: string, view: Option<View>, uid: nat)

  /** Whether the block layer can give a view, and whether the volume is one the file system mounts. */
  datatype Io = Io(view: bool, good: bool)

  datatype Outcome = Ok | NotFound | Refused

  ghost predicate RecordsApart(recs: seq<Rec>) {
    forall i, j :: 0 <= i < j < |recs| && recs[i].Used? && recs[j].Used? ==>
      recs[i].path != recs[j].path && (recs[i].view.Some? ==> recs[i].view != recs[j].view)
  }

  /** The views the records own. */
  ghost function Owned(recs: seq<Rec>): set<View> {
    set i | 0 <= i < |recs| && recs[i].Used? && recs[i].view.Some? :: recs[i].view.value
  }

  lemma RecordAdded(recs: seq<Rec>, k: nat, r: Rec)
    requires k < |recs| && recs[k] == Free && r.Used? && RecordsApart(recs)
    requires forall i :: 0 <= i < |recs| && recs[i].Used? ==> recs[i].path != r.path
    requires r.view.Some? ==> r.view.value !in Owned(recs)
    ensures RecordsApart(recs[k := r])
    ensures Owned(recs[k := r]) == Owned(recs) + if r.view.Some? then {r.view.value} else {}
  {
    var after := recs[k := r];
    forall i | 0 <= i < |recs| && recs[i].Used? && recs[i].view.Some? ensures recs[i].view.value in Owned(recs) {}
    forall v | v in Owned(recs) ensures v in Owned(after) {
      var i :| 0 <= i < |recs| && recs[i].Used? && recs[i].view.Some? && recs[i].view.value == v;
      assert after[i] == recs[i];
    }
    assert r.view.Some? ==> after[k].view.value in Owned(after);
  }

  lemma RecordCleared(recs: seq<Rec>, k: nat)
    requires k < |recs| && recs[k].Used? && RecordsApart(recs)
    ensures RecordsApart(recs[k := Free])
    ensures Owned(recs[k := Free]) == Owned(recs) - if recs[k].view.Some? then {recs[k].view.value} else {}
    ensures recs[k].view.Some? ==> recs[k].view.value in Owned(recs)
  {
    var after := recs[k := Free];
    forall v | v in Owned(recs) && recs[k].view != Some(v) ensures v in Owned(after) {
      var i :| 0 <= i < |recs| && recs[i].Used? && recs[i].view.Some? && recs[i].view.value == v;
      assert after[i] == recs[i];
    }
  }

  class Mounts {
    const recs: array<Rec>
    /** The file system's table below the root: the device view each path is mounted from, if any. */
    var mounted: map<string, Option<View>>
    /** The views made and not yet released. */
    var views: set<View>

    ghost predicate Valid()
      reads this, recs
    {
      && recs.Length == MAX_MOUNTS
      && |mounted| <= MAX_MOUNTS - 1
      && RecordsApart(recs[..])
      && (forall i :: 0 <= i < recs.Length && recs[i].Used? ==>
            recs[i].path in mounted && mounted[recs[i].path] == recs[i].view)
      && (forall p :: p in mounted && mounted[p].Some? ==>
            exists i :: 0 <= i < recs.Length && recs[i].Used? && recs[i].path == p)
      && views == Owned(recs[..])
    }

    constructor ()
      ensures Valid() && fresh(recs) && mounted == map[] && views == {}
    {
      recs := new Rec[MAX_MOUNTS](_ => Free);
      mounted, views := map[], {};
    }

    // ----- The layer below -----

    /** A new view of part of a disk; `ok` says whether one can be had. */
    method MakeView(ok: bool) returns (v: Option<View>)
      modifies this`views
      ensures v.Some? == ok
      ensures v == None ==> views == old(views)
      ensures v.Some? ==> v.value !in old(views) && views == old(views) + {v.value}
    {
      if !ok {
        return None;
      }
      var id := FreshId(views);
      views := views + {id};
      v := Some(id);
    }

    static method FreshId(s: set<View>) returns (id: View)
      ensures id !in s
    {
      id := 0;
      var rest := s;
      while rest != {}
        invariant rest <= s && forall x :: x in s && x !in rest ==> x < id
        decreases |rest|
      {
        var x :| x in rest;
        rest := rest - {x};
        if x >= id {
          id := x + 1;
        }
      }
    }

    /** A view is released once, and never under a mount that still reads through it. */
    method Release(v: View)
      requires v in views
      requires forall p :: p in mounted ==> mounted[p] != Some(v)
      modifies this`views
      ensures views == old(views) - {v}
    {
      views := views - {v};
    }

    /** Refused for a path that is mounted and when the table is full; `good` says whether the volume is one to mount. */
    method MountByType(path: string, v: Option<View>, good: bool) returns (ok: bool)
      modifies this`mounted
      ensures ok == (good && path !in old(mounted) && |old(mounted)| < MAX_MOUNTS - 1)
      ensures mounted == if ok then old(mounted)[path := v] else old(mounted)
    {
      ok := good && path !in mounted && |mounted| < MAX_MOUNTS - 1;
      if ok {
        mounted := mounted[path := v];
      }
    }

    /** `refused` are the paths the file system will not let go of now: a file is open there, or an error. */
    method UnmountByType(path: string, refused: set<string>) returns (r: Outcome)
      modifies this`mounted
      ensures r == if path !in old(mounted) then NotFound else if path in refused then Refused else Ok
      ensures mounted == if r == Ok then old(mounted) - {path} else old(mounted)
    {
      if path !in mounted {
        return NotFound;
      }
      if path in refused {
        return Refused;
      }
      mounted := mounted - {path};
      r := Ok;
    }

    // ----- Lookups -----

    method ByPath(path: string) returns (k: nat)
      requires Valid()
      ensures k <= MAX_MOUNTS
      ensures k < MAX_MOUNTS ==> recs[k].Used? && recs[k].path == path
      ensures k == MAX_MOUNTS ==> forall i :: 0 <= i < MAX_MOUNTS && recs[i].Used? ==> recs[i].path != path
    {
      k := 0;
      while k < MAX_MOUNTS
        invariant 0 <= k <= MAX_MOUNTS
        invariant forall i :: 0 <= i < k && recs[i].Used? ==> recs[i].path != path
      {
        if recs[k].Used? && recs[k].path == path {
          return;
        }
        k := k + 1;
      }
    }

    method ByDev(dev: string) returns (k: nat)
      requires Valid()
      ensures k <= MAX_MOUNTS
      ensures k < MAX_MOUNTS ==> recs[k].Used? && recs[k].dev == dev
      ensures k == MAX_MOUNTS ==> forall i :: 0 <= i < MAX_MOUNTS && recs[i].Used? ==> recs[i].dev != dev
    {
      k := 0;
      while k < MAX_MOUNTS
        invariant 0 <= k <= MAX_MOUNTS
        invariant forall i :: 0 <= i < k && recs[i].Used? ==> recs[i].dev != dev
      {
        if recs[k].Used? && recs[k].dev == dev {
          return;
        }
        k := k + 1;
      }
    }

    method FreeSlot() returns (k: nat)
      requires recs.Length == MAX_MOUNTS
      ensures k <= MAX_MOUNTS
      ensures k < MAX_MOUNTS ==> recs[k] == Free
      ensures k == MAX_MOUNTS ==> forall i :: 0 <= i < MAX_MOUNTS ==> recs[i].Used?
    {
      k := 0;
      while k < MAX_MOUNTS
        invariant 0 <= k <= MAX_MOUNTS
        invariant forall i :: 0 <= i < k ==> recs[i].Used?
      {
        if recs[k] == Free {
          return;
        }
        k := k + 1;
      }
    }

    /** The file system's table is smaller, so the records never run out. */
    lemma SlotAlwaysFree()
      requires recs.Length == MAX_MOUNTS && |mounted| <= MAX_MOUNTS - 1
      requires RecordsApart(recs[..])
      requires forall i :: 0 <= i < recs.Length && recs[i].Used? ==> recs[i].path in mounted
      ensures exists i :: 0 <= i < MAX_MOUNTS && recs[i] == Free
    {
      if forall i :: 0 <= i < MAX_MOUNTS ==> recs[i].Used? {
        var s := recs[..];
        var four := {s[0].path, s[1].path, s[2].path, s[3].path};
        assert four <= mounted.Keys && |four| == 4;
        SubsetSize(four, mounted.Keys);
      }
    }

    // ----- The operations -----

    /** Fills a free record for a mount the file system has just accepted. */
    method Record(k: nat, r: Rec)
      requires recs.Length == MAX_MOUNTS && k < MAX_MOUNTS && recs[k] == Free && r.Used?
      requires r.path in mounted && mounted[r.path] == r.view && |mounted| <= MAX_MOUNTS - 1
      requires RecordsApart(recs[..])
      requires forall i :: 0 <= i < recs.Length && recs[i].Used? ==>
                 recs[i].path != r.path && recs[i].path in mounted && mounted[recs[i].path] == recs[i].view
      requires forall p :: p in mounted && mounted[p].Some? && p != r.path ==>
                 exists i :: 0 <= i < recs.Length && recs[i].Used? && recs[i].path == p
      requires r.view.Some? ==> r.view.value !in Owned(recs[..])
      requires views == Owned(recs[..]) + if r.view.Some? then {r.view.value} else {}
      modifies recs
      ensures Valid()
      ensures recs[..] == old(recs[..])[k := r]
    {
      RecordAdded(recs[..], k, r);
      ghost var was := recs[..];
      recs[k] := r;
      assert recs[..] == was[k := r];
      forall p | p in mounted && mounted[p].Some?
        ensures exists i :: 0 <= i < recs.Length && recs[i].Used? && recs[i].path == p
      {
        if p == r.path {
          assert recs[k].path == p;
        } else {
          var i :| 0 <= i < |was| && was[i].Used? && was[i].path == p;
          assert recs[i] == was[i];
        }
      }
    }

    ghost predicate Unused(path: string)
      reads recs
    {
      forall i :: 0 <= i < recs.Length && recs[i].Used? ==> recs[i].path != path
    }

    ghost predicate UnusedDev(dev: string)
      reads recs
    {
      forall i :: 0 <= i < recs.Length && recs[i].Used? ==> recs[i].dev != dev
    }

    /** Whether the layers below will take a mount. */
    ghost predicate Takes(path: string, slice: bool, io: Io)
      reads this`mounted
    {
      (slice ==> io.view) && io.good && path !in mounted && |mounted| < MAX_MOUNTS - 1
    }

    /** The mount command, past its permission checks. `slice` says whether the mount needs a view of its own. */
    method Mount(path: string, dev: string, slice: bool, uid: nat, io: Io)
      returns (ok: bool, ghost k: nat, ghost view: Option<View>)
      requires Valid()
      modifies this, recs
      ensures Valid()
      ensures ok <==> old(Unused(path) && UnusedDev(dev) && Takes(path, slice, io))
      ensures !ok ==> recs[..] == old(recs[..]) && mounted == old(mounted) && views == old(views)
      ensures ok ==>
        && k < MAX_MOUNTS && old(recs[k]) == Free && view.Some? == slice
        && recs[..] == old(recs[..])[k := Used(dev, path, view, uid)]
        && path !in old(mounted) && mounted == old(mounted)[path := view]
    {
      k, view := 0, None;
      var at := ByPath(path);
      if at < MAX_MOUNTS {
        return false, k, view;
      }
      at := ByDev(dev);
      if at < MAX_MOUNTS {
        return false, k, view;
      }
      var slot := FreeSlot();
      SlotAlwaysFree();
      if slot == MAX_MOUNTS {
        return false, k, view;
      }
      var v: Option<View> := None;
      if slice {
        v := MakeView(io.view);
        if v == None {
          return false, k, view;
        }
      }
      var done := MountByType(path, v, io.good);
      if !done {
        if v.Some? {
          NotMounted(v.value);
          Release(v.value);
        }
        return false, k, view;
      }
      k, view := slot, v;
      Record(slot, Used(dev, path, v, uid));
      ok := true;
    }

    /** A view no record owns is under no mount. */
    lemma NotMounted(v: View)
      requires recs.Length == MAX_MOUNTS && v !in Owned(recs[..])
      requires forall i :: 0 <= i < recs.Length && recs[i].Used? ==>
                 recs[i].path in mounted && mounted[recs[i].path] == recs[i].view
      requires forall p :: p in mounted && mounted[p].Some? ==>
                 exists i :: 0 <= i < recs.Length && recs[i].Used? && recs[i].path == p
      ensures forall p :: p in mounted ==> mounted[p] != Some(v)
    {
      forall p | p in mounted ensures mounted[p] != Some(v) {
        if mounted[p].Some? {
          var i :| 0 <= i < recs.Length && recs[i].Used? && recs[i].path == p;
          assert recs[..][i].view.value in Owned(recs[..]);
        }
      }
    }

    /** The mount fstab asks for. The mount comes before the record, whose slot is always there. */
    method FstabMount(path: string, dev: string, slice: bool, uid: nat, io: Io)
      returns (ok: bool, ghost k: nat, ghost view: Option<View>)
      requires Valid()
      modifies this, recs
      ensures Valid()
      ensures ok <==> old(Unused(path) && Takes(path, slice, io))
      ensures !ok ==> recs[..] == old(recs[..]) && mounted == old(mounted) && views == old(views)
      ensures ok ==>
        && k < MAX_MOUNTS && old(recs[k]) == Free && view.Some? == slice
        && recs[..] == old(recs[..])[k := Used(dev, path, view, uid)]
        && path !in old(mounted) && mounted == old(mounted)[path := view]
    {
      k, view := 0, None;
      var at := ByPath(path);
      if at < MAX_MOUNTS {
        return false, k, view;
      }
      var v: Option<View> := None;
      if slice {
        v := MakeView(io.view);
        if v == None {
          return false, k, view;
        }
      }
      var done := MountByType(path, v, io.good);
      if !done {
        if v.Some? {
          NotMounted(v.value);
          Release(v.value);
        }
        return false, k, view;
      }
      SlotAlwaysFree();
      var slot := FreeSlot();
      if slot == MAX_MOUNTS {
        assert false;  // the source unmounts here without releasing the view
      }
      k, view := slot, v;
      Record(slot, Used(dev, path, v, uid));
      ok := true;
    }

    /** Takes record `k` down once the file system has let go of its path. */
    method Drop(k: nat)
      requires k < recs.Length && recs[k].Used? && recs[k].path !in mounted
      requires recs.Length == MAX_MOUNTS && |mounted| <= MAX_MOUNTS - 1
      requires RecordsApart(recs[..]) && views == Owned(recs[..])
      requires forall i :: 0 <= i < recs.Length && recs[i].Used? && i != k ==>
                 recs[i].path in mounted && mounted[recs[i].path] == recs[i].view
      requires forall p :: p in mounted && mounted[p].Some? ==>
                 exists i :: 0 <= i < recs.Length && i != k && recs[i].Used? && recs[i].path == p
      modifies this`views, recs
      ensures Valid()
      ensures recs[..] == old(recs[..])[k := Free]
    {
      ghost var was := recs[..];
      RecordCleared(was, k);
      if recs[k].view.Some? {
        forall p | p in mounted ensures mounted[p] != recs[k].view {
          if mounted[p].Some? {
            var i :| 0 <= i < recs.Length && i != k && recs[i].Used? && recs[i].path == p;
            assert was[i] == recs[i] && was[k] == recs[k];
          }
        }
        Release(recs[k].view.value);
      }
      recs[k] := Free;
      assert recs[..] == was[k := Free];
      forall p | p in mounted && mounted[p].Some?
        ensures exists i :: 0 <= i < recs.Length && recs[i].Used? && recs[i].path == p
      {
        var i :| 0 <= i < |was| && i != k && was[i].Used? && was[i].path == p;
        assert recs[i] == was[i];
      }
    }

    /** Unmounts record `k`, dropping it when the file system answers one of `gone`. */
    method Unmount(k: nat, gone: set<Outcome>, refused: set<string>) returns (r: Outcome)
      requires Valid() && k < MAX_MOUNTS && recs[k].Used? && Ok in gone && gone <= {Ok, NotFound}
      modifies this, recs
      ensures Valid()
      ensures r == if old(recs[k].path) in refused then Refused else Ok
      ensures r == Ok ==> recs[..] == old(recs[..])[k := Free] && mounted == old(mounted) - {old(recs[k].path)}
      ensures r != Ok ==> recs[..] == old(recs[..]) && mounted == old(mounted) && views == old(views)
    {
      ghost var before := mounted;
      ghost var was := recs[..];
      r := UnmountByType(recs[k].path, refused);
      if r in gone {
        Smaller(before, recs[k].path);
        forall i | 0 <= i < recs.Length && recs[i].Used? && i != k
          ensures recs[i].path in mounted && mounted[recs[i].path] == recs[i].view
        {
          assert was[i] == recs[i] && was[k] == recs[k];
        }
        forall p | p in mounted && mounted[p].Some?
          ensures exists i :: 0 <= i < recs.Length && i != k && recs[i].Used? && recs[i].path == p
        {
          assert p in before && before[p].Some?;
          var i :| 0 <= i < recs.Length && recs[i].Used? && recs[i].path == p;
        }
        Drop(k);
      }
    }

    static lemma Smaller(m: map<string, Option<View>>, p: string)
      requires p in m
      ensures |m - {p}| == |m| - 1
    {
      assert (m - {p}).Keys == m.Keys - {p};
    }

    /** umount, by mount point or else by device, for the mounter or root. */
    method UmountOne(path: Option<string>, dev: string, uid: nat, refused: set<string>) returns (ok: bool, ghost k: nat)
      requires Valid()
      modifies this, recs
      ensures Valid() && k <= MAX_MOUNTS
      ensures k == MAX_MOUNTS <==> old((path.Some? ==> Unused(path.value)) && UnusedDev(dev))
      ensures k < MAX_MOUNTS ==> old(recs[k].Used?)
      ensures k < MAX_MOUNTS ==>
                if path.Some? && !old(Unused(path.value)) then old(recs[k].path) == path.value else old(recs[k].dev) == dev
      ensures ok <==> k < MAX_MOUNTS && (uid == 0 || uid == old(recs[k].uid)) && old(recs[k].path) !in refused
      ensures !ok ==> recs[..] == old(recs[..]) && mounted == old(mounted) && views == old(views)
      ensures ok ==> recs[..] == old(recs[..])[k := Free] && mounted == old(mounted) - {old(recs[k].path)}
    {
      var at := MAX_MOUNTS;
      if path.Some? {
        at := ByPath(path.value);
      }
      if at == MAX_MOUNTS {
        at := ByDev(dev);
      }
      k := at;
      if at == MAX_MOUNTS {
        return false, k;
      }
      if uid != 0 && recs[at].uid != uid {
        return false, k;
      }
      var r := Unmount(at, {Ok, NotFound}, refused);
      ok := r == Ok;
    }

    /** Whether a record goes with the disk. */
    ghost predicate Goes(r: Rec, disk: string, refused: set<string>) {
      r.Used? && disk <= r.dev && r.path !in refused
    }

    /** The disk is gone: every mount of it or of a partition of it goes, unless a file is open there. */
    method DeviceGone(disk: string, refused: set<string>)
      requires Valid()
      modifies this, recs
      ensures Valid()
      ensures forall i :: 0 <= i < MAX_MOUNTS ==>
                recs[i] == if Goes(old(recs[i]), disk, refused) then Free else old(recs[i])
    {
      var i := 0;
      while i < MAX_MOUNTS
        invariant 0 <= i <= MAX_MOUNTS && Valid()
        invariant forall j :: 0 <= j < i ==> recs[j] == if Goes(old(recs[j]), disk, refused) then Free else old(recs[j])
        invariant forall j :: i <= j < MAX_MOUNTS ==> recs[j] == old(recs[j])
      {
        ghost var was := recs[..];
        if recs[i].Used? && disk <= recs[i].dev {
          var r := Unmount(i, {Ok}, refused);
          assert forall j :: 0 <= j < MAX_MOUNTS ==> recs[j] == recs[..][j];
          assert forall j :: 0 <= j < MAX_MOUNTS && j != i ==> recs[j] == was[j];
        }
        i := i + 1;
      }
    }

    /** Over any run of the commands and of disks leaving, the records and the views stay in step. */
    method Serve(requests: seq<Request>)
      requires Valid()
      modifies this, recs
      ensures Valid()
    {
      for i := 0 to |requests|
        invariant Valid()
      {
        match requests[i] {
          case DoMount(path, dev, slice, uid, io) => var ok, k, v := Mount(path, dev, slice, uid, io);
          case DoFstab(path, dev, slice, uid, io) => var ok, k, v := FstabMount(path, dev, slice, uid, io);
          case DoUmount(path, dev, uid, refused) => var ok, k := UmountOne(path, dev, uid, refused);
          case DoDetach(disk, refused) => DeviceGone(disk, refused);
        }
      }
    }
  }

  datatype Request =
    | DoMount(path: string, dev: string, slice: bool, uid: nat, io: Io)
    | DoFstab(path: string, dev: string, slice: bool, uid: nat, io: Io)
    | DoUmount(at: Option<string>, dev: string, uid: nat, refused: set<string>)
    | DoDetach(disk: string, refused: set<string>)
}
