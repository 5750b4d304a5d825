/** BuildModel: the presence condition of every file, stored under file or directory
    keys, and the lookup that walks from a file up through its parent directories. */
module BuildModels {
  import opened Wrappers
  import opened Formulas

  /** BuildModelDescriptor.KeyType: what the keys of the model stand for. */
  datatype KeyType = FILE | DIRECTORY | FILE_AND_DIRECTORY

  /** A relative java.io.File by its name components: "a/b/c.c" is ["a", "b", "c.c"]. */
  type File = seq<string>

  /** File.getParentFile: the path without its last name, or null for a single name. */
  function Parent(f: File): (r: Option<File>)
    ensures r.Some? <==> |f| >= 2
    ensures r.Some? ==> r.value == f[..|f| - 1]
  {
    if |f| <= 1 then None else Some(f[..|f| - 1])
  }

  /** The first index k at which the prefix f[..k] names f or one of its ancestors:
      every name of a path but the empty path itself. */
  function Lowest(f: File): nat {
    if f == [] then 0 else 1
  }

  /** The walk of getPc: the PC stored for start, else for its parent, and so on up to
      a single name. */
  function Nearest(mapping: map<File, Formula>, start: Option<File>): Option<Formula>
    decreases if start.Some? then |start.value| + 1 else 0
  {
    if start.None? then None
    else if start.value in mapping then Some(mapping[start.value])
    else Nearest(mapping, Parent(start.value))
  }

  /** getPc by key type: an exact lookup for FILE keys, the proper ancestors for
      DIRECTORY keys, the file and then its ancestors for FILE_AND_DIRECTORY keys. */
  function PcOf(mapping: map<File, Formula>, keyType: KeyType, file: File): Option<Formula> {
    match keyType
    case FILE => if file in mapping then Some(mapping[file]) else None
    case DIRECTORY => Nearest(mapping, Parent(file))
    case FILE_AND_DIRECTORY => Nearest(mapping, Some(file))
  }

  /** f[..k] is the longest prefix of f (f or one of its ancestors) with a stored PC. */
  predicate DeepestAt(mapping: map<File, Formula>, f: File, k: nat) {
    Lowest(f) <= k <= |f| && f[..k] in mapping && forall j :: k < j <= |f| ==> f[..j] !in mapping
  }

  /** The walk finds the longest stored prefix of f. */
  lemma {:induction false} NearestFound(mapping: map<File, Formula>, f: File, k: nat)
    requires DeepestAt(mapping, f, k)
    ensures Nearest(mapping, Some(f)) == Some(mapping[f[..k]])
    decreases |f|
  {
    if k < |f| {
      assert f[..|f|] == f;
      var g := f[..|f| - 1];
      assert forall j :: k < j <= |g| ==> g[..j] == f[..j];
      assert g[..k] == f[..k];
      NearestFound(mapping, g, k);
    } else {
      assert f[..k] == f;
    }
  }

  /** When no prefix of f is stored, the walk finds nothing. */
  lemma {:induction false} NearestNone(mapping: map<File, Formula>, f: File)
    requires forall k :: Lowest(f) <= k <= |f| ==> f[..k] !in mapping
    ensures Nearest(mapping, Some(f)) == None
    decreases |f|
  {
    assert f[..|f|] == f;
    if |f| >= 2 {
      var g := f[..|f| - 1];
      assert forall k :: Lowest(g) <= k <= |g| ==> g[..k] == f[..k];
      NearestNone(mapping, g);
    }
  }

  /** Whatever the walk finds is stored at a prefix of f, with no longer prefix stored. */
  lemma {:induction false} NearestSound(mapping: map<File, Formula>, f: File)
    requires Nearest(mapping, Some(f)).Some?
    ensures exists k: nat :: DeepestAt(mapping, f, k) && Nearest(mapping, Some(f)).value == mapping[f[..k]]
    decreases |f|
  {
    assert f[..|f|] == f;
    if f !in mapping {
      var g := f[..|f| - 1];
      NearestSound(mapping, g);
      var k: nat :| DeepestAt(mapping, g, k) && Nearest(mapping, Some(g)).value == mapping[g[..k]];
      assert g[..k] == f[..k];
      assert forall j :: k < j <= |g| ==> g[..j] == f[..j];
      assert DeepestAt(mapping, f, k);
    }
  }

  /** An entry deeper than the start of the walk is never reached. */
  lemma {:induction false} NearestIgnoresDeeper(mapping: map<File, Formula>, start: File, key: File, pc: Formula)
    requires |key| > |start|
    ensures Nearest(mapping[key := pc], Some(start)) == Nearest(mapping, Some(start))
    decreases |start|
  {
    if start !in mapping && |start| >= 2 {
      NearestIgnoresDeeper(mapping, start[..|start| - 1], key, pc);
    }
  }

  /** With DIRECTORY keys, an entry stored under the file itself plays no part. */
  lemma DirectoryIgnoresFile(mapping: map<File, Formula>, file: File, pc: Formula)
    ensures PcOf(mapping[file := pc], DIRECTORY, file) == PcOf(mapping, DIRECTORY, file)
  {
    if |file| >= 2 {
      NearestIgnoresDeeper(mapping, file[..|file| - 1], file, pc);
    }
  }

  /** Adding an entry never takes a PC away from a file, whatever the key type. */
  lemma {:induction false} AddKeepsFound(mapping: map<File, Formula>, start: Option<File>, key: File, pc: Formula)
    requires Nearest(mapping, start).Some?
    ensures Nearest(mapping[key := pc], start).Some?
    decreases if start.Some? then |start.value| + 1 else 0
  {
    if start.value !in mapping {
      AddKeepsFound(mapping, Parent(start.value), key, pc);
    }
  }

  lemma AddKeepsPc(mapping: map<File, Formula>, keyType: KeyType, file: File, key: File, pc: Formula)
    requires PcOf(mapping, keyType, file).Some?
    ensures PcOf(mapping[key := pc], keyType, file).Some?
  {
    match keyType
    case FILE =>
    case DIRECTORY => AddKeepsFound(mapping, Parent(file), key, pc);
    case FILE_AND_DIRECTORY => AddKeepsFound(mapping, Some(file), key, pc);
  }

  /** With DIRECTORY keys, containsKey and containsFile differ: a model holding only
      "a" does not contain the file "a". */
  lemma DirectoryKeyNotFile()
    ensures var mapping := map[["a"] := True];
      ["a"] in mapping && PcOf(mapping, DIRECTORY, ["a"]).None?
  {
  }

  class BuildModel {
    /** fileFormulaMapping. */
    var mapping: map<File, Formula>
    /** The key type of the model's descriptor. */
    var keyType: KeyType

    /** A new, empty model with FILE keys. */
    constructor()
      ensures mapping == map[] && keyType == FILE
    {
      mapping := map[];
      keyType := FILE;
    }

    /** setDescriptor, reduced to the key type that getPc reads. */
    method SetKeyType(keyType: KeyType)
      modifies this
      ensures this.keyType == keyType && mapping == old(mapping)
    {
      this.keyType := keyType;
    }

    /** add: stores the PC under the file, replacing what was stored there. */
    method Add(file: File, pc: Formula)
      modifies this
      ensures mapping == old(mapping)[file := pc] && keyType == old(keyType)
    {
      mapping := mapping[file := pc];
    }

    /** getPc: the lookup that follows the key type. */
    method GetPc(file: File) returns (result: Option<Formula>)
      ensures result == PcOf(mapping, keyType, file)
    {
      if keyType == FILE {
        result := if file in mapping then Some(mapping[file]) else None;
      } else if keyType == DIRECTORY {
        result := None;
        var parent := Parent(file);
        while parent.Some? && result.None?
          invariant result.None? ==> Nearest(mapping, Parent(file)) == Nearest(mapping, parent)
          invariant result.Some? ==> Nearest(mapping, Parent(file)) == result
          decreases if parent.Some? then |parent.value| + 1 else 0
        {
          result := if parent.value in mapping then Some(mapping[parent.value]) else None;
          parent := Parent(parent.value);
        }
      } else {
        var f := Some(file);
        result := None;
        while result.None? && f.Some?
          invariant result.None? ==> Nearest(mapping, Some(file)) == Nearest(mapping, f)
          invariant result.Some? ==> Nearest(mapping, Some(file)) == result
          decreases if f.Some? then |f.value| + 1 else 0
        {
          result := if f.value in mapping then Some(mapping[f.value]) else None;
          f := Parent(f.value);
        }
      }
    }

    /** getPcDirect: what is stored at exactly this key. */
    function GetPcDirect(key: File): (r: Option<Formula>)
      reads this
      ensures r.Some? <==> key in mapping
      ensures r.Some? ==> r.value == mapping[key]
    {
      if key in mapping then Some(mapping[key]) else None
    }

    /** containsKey: an exact check that ignores the key type. */
    function ContainsKey(file: File): (b: bool)
      reads this
      ensures b <==> GetPcDirect(file).Some?
    {
      file in mapping
    }

    /** containsFile: whether getPc finds a PC. */
    method ContainsFile(file: File) returns (b: bool)
      ensures b <==> PcOf(mapping, keyType, file).Some?
    {
      var pc := GetPc(file);
      b := pc.Some?;
    }

    /** delete: removes the entry for exactly this key. */
    method Delete(file: File)
      modifies this
      ensures mapping == old(mapping) - {file} && keyType == old(keyType)
    {
      mapping := mapping - {file};
    }

    /** getSize: the number of keys. */
    function GetSize(): (n: nat)
      reads this
      ensures n == |mapping.Keys|
    {
      |mapping|
    }
  }
}
