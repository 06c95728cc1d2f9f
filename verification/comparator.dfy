/**
 * The comparison `filecmp.dircmp` makes between a source and a destination
 * directory, and the change check built from it.
 */
module Comparator {
  import opened FileTypes

  /**
   * The three name lists `sync_folders` reads from a `dircmp`:
   * `left_only`, `right_only` and `diff_files`.
   */
  datatype Comparison = Comparison(leftOnly: set<Name>, rightOnly: set<Name>, diffFiles: set<Name>)
  {
    /** No name needs copying, removing or updating. */
    predicate IsEmpty()
    {
      leftOnly == {} && rightOnly == {} && diffFiles == {}
    }
  }

  /**
   * A file-equality test that calls a file equal to itself; a copy that
   * duplicates content (and the metadata the test looks at) then always
   * compares equal to its original.
   */
  ghost predicate Reflexive(same: (Bytes, Bytes) -> bool)
  {
    forall f: Bytes :: same(f, f)
  }

  /** A file-equality test that only calls identical files equal. */
  ghost predicate Sound(same: (Bytes, Bytes) -> bool)
  {
    forall f: Bytes, g: Bytes :: same(f, g) ==> f == g
  }

  /**
   * The two directories hold the same names, and the equality test calls
   * every common file equal: nothing to synchronize.
   */
  predicate InSync(same: (Bytes, Bytes) -> bool, src: Directory, dst: Directory)
  {
    src.Keys == dst.Keys && forall n :: n in src ==> same(src[n], dst[n])
  }

  /**
   * `filecmp.dircmp(source_folder, destination_folder)`: names only in the
   * source, names only in the destination, and common names whose files the
   * equality test `same` reports as different.
   */
  function Compare(same: (Bytes, Bytes) -> bool, src: Directory, dst: Directory): (c: Comparison)
    ensures c.leftOnly !! c.rightOnly && c.leftOnly !! c.diffFiles && c.rightOnly !! c.diffFiles
    ensures c.leftOnly <= src.Keys && c.rightOnly <= dst.Keys
    ensures c.diffFiles <= src.Keys * dst.Keys
  {
    Comparison(
      set n | n in src && n !in dst,
      set n | n in dst && n !in src,
      set n | n in src && n in dst && !same(src[n], dst[n]))
  }

  /**
   * Every name of either directory lands in exactly one of the three sets,
   * unless it is a common name whose files the test calls equal, which lands
   * in none.
   */
  lemma ComparePartition(same: (Bytes, Bytes) -> bool, src: Directory, dst: Directory, n: Name)
    ensures var c := Compare(same, src, dst);
      && (n in c.leftOnly <==> n in src && n !in dst)
      && (n in c.rightOnly <==> n in dst && n !in src)
      && (n in c.diffFiles <==> n in src && n in dst && !same(src[n], dst[n]))
      && (n in src || n in dst ==>
            n in c.leftOnly || n in c.rightOnly || n in c.diffFiles || same(src[n], dst[n]))
  {
  }

  /**
   * `is_folder_changed`: some name needs copying, removing or updating.
   * It is false exactly when the two directories are in sync.
   */
  function IsFolderChanged(same: (Bytes, Bytes) -> bool, src: Directory, dst: Directory): (changed: bool)
    ensures changed <==> !InSync(same, src, dst)
  {
    var c := Compare(same, src, dst);
    assert !c.IsEmpty() ==> !InSync(same, src, dst) by {
      if c.leftOnly != {} {
        var n :| n in c.leftOnly;
        assert n in src.Keys - dst.Keys;
      } else if c.rightOnly != {} {
        var n :| n in c.rightOnly;
        assert n in dst.Keys - src.Keys;
      } else if c.diffFiles != {} {
        var n :| n in c.diffFiles;
        assert !same(src[n], dst[n]);
      }
    }
    assert c.IsEmpty() ==> InSync(same, src, dst) by {
      if c.IsEmpty() {
        forall n | n in src ensures n in dst && same(src[n], dst[n]) {
          assert n !in c.leftOnly;
          assert n !in c.diffFiles;
        }
        forall n | n in dst ensures n in src { assert n !in c.rightOnly; }
      }
    }
    c.leftOnly != {} || c.rightOnly != {} || c.diffFiles != {}
  }
}
