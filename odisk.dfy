/**
 * The emulated object disk (src/lib/libodisk/odisk.c): objects are the
 * regular files of one directory, read whole.  The directory listing and
 * the file contents are inputs; attribute files (names ending in the
 * attribute extension) are not objects.
 */
module ObjectDisk {
  import opened Wrappers

  /** The object directory (DIR_PATH_NAME). */
  const DirPathName: string := "/opt/dir1"

  /** Names of this length or longer are refused (MAX_FNAME). */
  const MaxFname: nat := 128

  /** The errno values the object disk returns. */
  datatype Errno = ENOENT | EINVAL

  /** A loaded object: its bytes and their number; attributes are never loaded. */
  datatype ObjData = ObjData(data: seq<bv8>, dataLen: nat, attrLen: nat)

  /** A directory entry as readdir returns it. */
  datatype DirEnt = DirEnt(name: string, isRegular: bool)

  /** The files that stat, fopen and fread can reach, by path. */
  type Files = map<string, seq<bv8>>

  /**
   * odisk_load_obj: EINVAL for a name of MAX_FNAME characters or more
   * before anything else; ENOENT when the file is missing or reads as
   * nothing (fread of a zero-sized item reports no item); otherwise the
   * whole file with no attributes.
   */
  function LoadObj(files: Files, name: string): (r: Result<ObjData, Errno>)
    ensures |name| >= MaxFname ==> r == Err(EINVAL)
    ensures r.Ok? <==> |name| < MaxFname && name in files && |files[name]| > 0
    ensures r.Err? && |name| < MaxFname ==> r.error == ENOENT
    ensures r.Ok? ==> r.value.data == files[name] && r.value.dataLen == |r.value.data| && r.value.attrLen == 0
  {
    if |name| >= MaxFname then Err(EINVAL)
    else if name !in files then Err(ENOENT)
    else
      var data := files[name];
      if |data| == 0 then Err(ENOENT)
      else Ok(ObjData(data, |data|, 0))
  }

  /** The name ends with the extension and is strictly longer than it. */
  predicate IsAttrFile(name: string, attrExt: string): (b: bool)
    ensures b <==> exists stem :: stem != [] && name == stem + attrExt
  {
    var k := |name| - |attrExt|;
    assert forall stem :: stem != [] && name == stem + attrExt ==> k > 0 && name[k..] == attrExt by {
      forall stem | stem != [] && name == stem + attrExt
        ensures k > 0 && name[k..] == attrExt
      {
        assert |stem| == k;
      }
    }
    if |name| > |attrExt| && name[k..] == attrExt then
      assert name == name[..k] + attrExt;
      true
    else false
  }

  /**
   * An entry odisk_next_obj loads: a regular file that is not an attribute
   * file; a regular file named exactly the extension is one.
   */
  predicate Eligible(e: DirEnt, attrExt: string): (b: bool)
    ensures b ==> e.isRegular
    ensures e.isRegular && |e.name| <= |attrExt| ==> b
    ensures b <==> e.isRegular && forall stem :: stem != [] ==> e.name != stem + attrExt
  {
    e.isRegular && !IsAttrFile(e.name, attrExt)
  }

  /** The position of the first eligible entry, |entries| when there is none. */
  function FirstEligible(entries: seq<DirEnt>, attrExt: string): (k: nat)
    ensures k <= |entries|
    ensures forall i :: 0 <= i < k ==> !Eligible(entries[i], attrExt)
    ensures k < |entries| ==> Eligible(entries[k], attrExt)
  {
    if entries == [] || Eligible(entries[0], attrExt) then 0
    else 1 + FirstEligible(entries[1..], attrExt)
  }

  /** The path an entry is loaded from: "%s/%s" of the directory and the name. */
  function EntryPath(name: string): (path: string)
    ensures |path| == |DirPathName| + 1 + |name|
  {
    DirPathName + "/" + name
  }

  /** The directory stream: the entries readdir has yet to return. */
  class DirStream {
    var remaining: seq<DirEnt>

    constructor(entries: seq<DirEnt>)
      ensures remaining == entries
    {
      remaining := entries;
    }

    /**
     * odisk_next_obj: reads entries until one is eligible and loads it
     * from the object directory, returning the load's error unchanged;
     * ENOENT once the entries run out.  Every entry read is consumed.
     */
    method NextObj(files: Files, attrExt: string) returns (r: Result<ObjData, Errno>)
      modifies this
      ensures var k := FirstEligible(old(remaining), attrExt);
              if k < |old(remaining)| then
                remaining == old(remaining)[k + 1..] &&
                r == LoadObj(files, EntryPath(old(remaining)[k].name))
              else
                remaining == [] && r == Err(ENOENT)
    {
      ghost var entries := remaining;
      ghost var read := 0;
      while true
        invariant read <= |entries| && remaining == entries[read..]
        invariant forall i :: 0 <= i < read ==> !Eligible(entries[i], attrExt)
        decreases |remaining|
      {
        if remaining == [] {
          ScanExhausted(entries, attrExt, read);
          return Err(ENOENT);
        }
        var ent := remaining[0];
        remaining := remaining[1..];
        read := read + 1;
        if !ent.isRegular {
          continue;
        }
        var extlen := |attrExt|;
        var flen := |ent.name|;
        if flen > extlen && ent.name[flen - extlen..] == attrExt {
          continue;
        }
        ScanFound(entries, attrExt, read - 1);
        r := LoadObj(files, EntryPath(ent.name));
        return;
      }
    }
  }

  /** With no eligible entry among all of them, the first eligible one is past the end. */
  lemma ScanExhausted(entries: seq<DirEnt>, attrExt: string, n: nat)
    requires n == |entries|
    requires forall i :: 0 <= i < n ==> !Eligible(entries[i], attrExt)
    ensures FirstEligible(entries, attrExt) == n
  {
    FirstAfterIneligible(entries, attrExt, n);
  }

  /** An eligible entry after ineligible ones is the first eligible entry. */
  lemma ScanFound(entries: seq<DirEnt>, attrExt: string, n: nat)
    requires n < |entries| && Eligible(entries[n], attrExt)
    requires forall i :: 0 <= i < n ==> !Eligible(entries[i], attrExt)
    ensures FirstEligible(entries, attrExt) == n
  {
    FirstAfterIneligible(entries, attrExt, n);
  }

  /** FirstEligible lies at or after a run of ineligible entries. */
  lemma {:induction false} FirstAfterIneligible(entries: seq<DirEnt>, attrExt: string, n: nat)
    requires n <= |entries|
    requires forall i :: 0 <= i < n ==> !Eligible(entries[i], attrExt)
    ensures FirstEligible(entries, attrExt) >= n
    ensures n < |entries| && Eligible(entries[n], attrExt) ==> FirstEligible(entries, attrExt) == n
    decreases n
  {
    if n > 0 {
      assert !Eligible(entries[0], attrExt);
      FirstAfterIneligible(entries[1..], attrExt, n - 1);
    }
  }

  /** A regular file named exactly the extension is an object, not an attribute file. */
  lemma ExtensionAloneIsObject(attrExt: string)
    ensures Eligible(DirEnt(attrExt, true), attrExt)
  {
  }

  /** A regular file whose name is some stem plus the extension is skipped. */
  lemma AttrFileSkipped(stem: string, attrExt: string)
    requires stem != []
    ensures !Eligible(DirEnt(stem + attrExt, true), attrExt)
  {
  }

  /**
   * Names of MAX_FNAME minus 10 characters or more fail with EINVAL, since
   * the loaded path adds the directory and a slash.
   */
  lemma LongEntryNameRejected(files: Files, name: string)
    requires |name| + |DirPathName| + 1 >= MaxFname
    ensures LoadObj(files, EntryPath(name)) == Err(EINVAL)
  {
  }
}
