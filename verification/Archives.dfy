/** The directory of a log file, the names of its archives, and shifting them by one. */
module Archives {
  import opened Decimal
  import opened Messages
  import opened Options

  datatype File = Plain(log: seq<Message>) | Compressed(log: seq<Message>)

  type Directory = map<string, File>

  function Lookup(files: Directory, name: string): Option<File> {
    if name in files then Some(files[name]) else None
  }

  /** The files of one directory. The destination of a rename must be free. */
  class FileSystem {
    var files: Directory

    constructor (files: Directory)
      ensures this.files == files
    {
      this.files := files;
    }

    method Remove(name: string)
      requires name in files
      modifies this
      ensures files == old(files) - {name}
    {
      files := files - {name};
    }

    method Rename(src: string, dst: string)
      requires src in files && dst !in files
      modifies this
      ensures files == (old(files) - {src})[dst := old(files)[src]]
    {
      files := (files - {src})[dst := files[src]];
    }

    method Write(name: string, file: File)
      modifies this
      ensures files == old(files)[name := file]
    {
      files := files[name := file];
    }

    /** A directory iterator yields the entries in no particular order. */
    method List() returns (names: seq<string>)
      ensures forall name :: name in names <==> name in files
      ensures forall i, j :: 0 <= i < j < |names| ==> names[i] != names[j]
    {
      names := [];
      var left := files.Keys;
      while left != {}
        invariant left <= files.Keys
        invariant forall name :: name in names <==> name in files && name !in left
        invariant forall i, j :: 0 <= i < j < |names| ==> names[i] != names[j]
      {
        var name :| name in left;
        names := names + [name];
        left := left - {name};
      }
    }
  }

  /** The archives of the log file `base` that were compressed to extension `ext`. */
  datatype Series = Series(base: string, ext: string) {

    function ArchiveName(n: nat): string {
      base + "." + Digits(n) + "." + ext
    }

    /** Matches `base`, a dot, digits, a dot and `ext`, and yields the number. */
    function ArchiveNumber(name: string): Option<nat> {
      var before, after := |base| + 1, |ext| + 1;
      if before + after < |name| && base + "." <= name && name[|name| - after..] == "." + ext then
        var digits := name[before..|name| - after];
        if AllDigits(digits) then Some(Value(digits)) else None
      else
        None
    }

    predicate IsArchive(name: string) {
      ArchiveNumber(name).Some?
    }

    /** Where the log goes before it is compressed. */
    function UncompressedName(): string { base + ".0" }

    /** Archives are named as the program names them, with numbers that a `size_t` can hold
        and step. */
    ghost predicate CanonicallyNamed(files: Directory) {
      forall name :: name in files && IsArchive(name)
        ==> name == ArchiveName(ArchiveNumber(name).value) && ArchiveNumber(name).value < 0xffff_ffff_ffff_ffff
    }

    ghost predicate UnrelatedSame(before: Directory, after: Directory) {
      forall name :: !IsArchive(name) ==> Lookup(after, name) == Lookup(before, name)
    }

    /** What archive `n` holds when the archives outside `todo` were shifted. */
    ghost function ShiftedTo(before: Directory, keep: uint32, todo: set<nat>, n: nat): Option<File> {
      if n in todo then Lookup(before, ArchiveName(n))
      else if n > 0 && n - 1 !in todo && n < keep then Lookup(before, ArchiveName(n - 1))
      else None
    }

    ghost predicate PartlyShifted(before: Directory, after: Directory, keep: uint32, todo: set<nat>) {
      && UnrelatedSame(before, after)
      && CanonicallyNamed(after)
      && forall n: nat :: Lookup(after, ArchiveName(n)) == ShiftedTo(before, keep, todo, n)
    }

    /** What archive `n` holds after the shift: what archive `n - 1` held, below `keep`. */
    ghost function MovedTo(before: Directory, keep: nat, n: nat): Option<File> {
      if 0 < n < keep then Lookup(before, ArchiveName(n - 1)) else None
    }

    /** Archive `n` moved to `n + 1` exactly when `n + 1 < keep`; the others are gone. */
    ghost predicate Shifted(before: Directory, after: Directory, keep: nat) {
      && UnrelatedSame(before, after)
      && CanonicallyNamed(after)
      && forall n: nat :: Lookup(after, ArchiveName(n)) == MovedTo(before, keep, n)
    }

    lemma NumberOfName(n: nat)
      ensures ArchiveNumber(ArchiveName(n)) == Some(n)
    {
      var name := ArchiveName(n);
      var before, after := |base| + 1, |ext| + 1;
      assert name == (base + ".") + (Digits(n) + ("." + ext));
      assert base + "." <= name;
      assert name[|name| - after..] == "." + ext;
      assert name[before..|name| - after] == Digits(n);
      ValueOfDigits(n);
    }

    /** The names of archives are those of the base, a dot, one or more digits, a dot and the
        extension. */
    lemma ArchiveForm(name: string, digits: string)
      ensures name == base + "." + digits + "." + ext && digits != "" && AllDigits(digits)
          ==> ArchiveNumber(name) == Some(Value(digits))
      ensures IsArchive(name) ==>
        var d := name[|base| + 1..|name| - |ext| - 1];
        name == base + "." + d + "." + ext && d != "" && AllDigits(d)
    {
      if name == base + "." + digits + "." + ext && digits != "" {
        assert name == (base + ".") + (digits + ("." + ext));
        assert base + "." <= name;
        assert name[|name| - |ext| - 1..] == "." + ext;
        assert name[|base| + 1..|name| - |ext| - 1] == digits;
      }
      if IsArchive(name) {
        var d := name[|base| + 1..|name| - |ext| - 1];
        assert name == name[..|base| + 1] + d + name[|name| - |ext| - 1..];
        assert base + "." + d + ("." + ext) == base + "." + d + "." + ext;
      }
    }

    /** After the shift, archive `n + 1` is what archive `n` was if `n + 1` is below `keep`, and is
        gone otherwise, as is archive 0. */
    lemma ShiftedMeans(before: Directory, after: Directory, keep: nat, n: nat)
      requires Shifted(before, after, keep)
      ensures Lookup(after, base + "." + Digits(n + 1) + "." + ext)
           == if n + 1 < keep then Lookup(before, base + "." + Digits(n) + "." + ext) else None
      ensures Lookup(after, base + "." + Digits(0) + "." + ext) == None
    {
      assert Lookup(after, ArchiveName(n + 1)) == MovedTo(before, keep, n + 1);
      assert Lookup(after, ArchiveName(0)) == MovedTo(before, keep, 0);
    }

    lemma NamesDistinct()
      ensures forall n: nat :: ArchiveNumber(ArchiveName(n)) == Some(n)
      ensures !IsArchive(base) && !IsArchive(UncompressedName())
    {
      forall n: nat
        ensures ArchiveNumber(ArchiveName(n)) == Some(n)
      {
        NumberOfName(n);
      }
    }
  }

  ghost predicate StrictlyDescending(s: seq<nat>) {
    forall i, j :: 0 <= i < j < |s| ==> s[i] > s[j]
  }

  /** Sorts numbers in descending order, for the call to `sort` with `greater`. */
  function Inserted(n: nat, s: seq<nat>): (r: seq<nat>)
    requires StrictlyDescending(s) && n !in s
    ensures StrictlyDescending(r)
    ensures forall k :: k in r <==> k == n || k in s
  {
    if s == [] || n > s[0] then [n] + s
    else
      var rest := Inserted(n, s[1..]);
      assert forall k :: k in s <==> k == s[0] || k in s[1..];
      assert forall k :: k in rest ==> k < s[0] by {
        forall k | k in rest ensures k < s[0] {
          if k != n {
            var i :| 0 <= i < |s[1..]| && s[1..][i] == k;
            assert s[0] > s[i + 1];
          }
        }
      }
      assert forall i :: 0 <= i < |rest| ==> rest[i] in rest;
      [s[0]] + rest
  }

  function Sorted(s: seq<nat>): (r: seq<nat>)
    requires forall i, j :: 0 <= i < j < |s| ==> s[i] != s[j]
    ensures StrictlyDescending(r)
    ensures forall k :: k in r <==> k in s
  {
    if s == [] then []
    else
      var rest := Sorted(s[1..]);
      assert forall k :: k in s <==> k == s[0] || k in s[1..];
      Inserted(s[0], rest)
  }

  /** The numbers of the archives in the directory, highest first. */
  method GetArchives(fs: FileSystem, series: Series) returns (archives: seq<nat>)
    requires series.CanonicallyNamed(fs.files)
    ensures StrictlyDescending(archives)
    ensures forall n: nat :: n in archives <==> series.ArchiveName(n) in fs.files
  {
    series.NamesDistinct();
    archives := [];
    var names := fs.List();
    for i := 0 to |names|
      invariant forall n: nat :: n in archives <==> series.ArchiveName(n) in names[..i]
      invariant forall j, k :: 0 <= j < k < |archives| ==> archives[j] != archives[k]
    {
      assert names[..i + 1] == names[..i] + [names[i]];
      match series.ArchiveNumber(names[i])
      case None =>
      case Some(n) =>
        assert names[i] == series.ArchiveName(n);
        assert n !in archives;
        archives := archives + [n];
    }
    assert names[..|names|] == names;
    archives := Sorted(archives);
  }

  /** Moves each archive up by one, or removes it; every rename finds its destination free. */
  method RollArchives(fs: FileSystem, series: Series, keep: uint32)
    requires series.CanonicallyNamed(fs.files)
    modifies fs
    ensures series.Shifted(old(fs.files), fs.files, keep)
  {
    var archives := GetArchives(fs, series);
    ghost var before := fs.files;
    NoneShifted(series, before, keep, Left(archives, 0));
    for i := 0 to |archives|
      invariant series.PartlyShifted(before, fs.files, keep, Left(archives, i))
    {
      HighestLeft(archives, i);
      RollArchive(fs, series, archives[i], keep, before, Left(archives, i));
    }
    AllShifted(series, before, fs.files, keep);
  }

  ghost function Left(archives: seq<nat>, i: nat): set<nat>
    requires i <= |archives|
  {
    set n | n in archives[i..]
  }

  /** The body of the loop of `RollArchives`, for the highest archive left. */
  method RollArchive(fs: FileSystem, series: Series, num: nat, keep: uint32,
                     ghost before: Directory, ghost todo: set<nat>)
    requires series.CanonicallyNamed(before)
    requires series.PartlyShifted(before, fs.files, keep, todo)
    requires num in todo && (forall n :: n in todo ==> n <= num)
    requires series.ArchiveName(num) in before
    requires forall n: nat :: series.ArchiveName(n) in before ==> n in todo || n > num
    modifies fs
    ensures series.PartlyShifted(before, fs.files, keep, todo - {num})
  {
    OneToShift(series, before, fs.files, keep, todo, num);
    ghost var previous := fs.files;
    if num + 1 >= keep {
      fs.Remove(series.ArchiveName(num));
    } else {
      fs.Rename(series.ArchiveName(num), series.ArchiveName(num + 1));
    }
    OneShifted(series, before, previous, fs.files, keep, todo, num);
  }

  lemma NoneShifted(series: Series, before: Directory, keep: uint32, todo: set<nat>)
    requires series.CanonicallyNamed(before)
    requires forall n: nat :: n in todo <==> series.ArchiveName(n) in before
    ensures series.PartlyShifted(before, before, keep, todo)
  {}

  lemma AllShifted(series: Series, before: Directory, after: Directory, keep: uint32)
    requires series.PartlyShifted(before, after, keep, {})
    ensures series.Shifted(before, after, keep)
  {}

  lemma HighestLeft(archives: seq<nat>, i: nat)
    requires StrictlyDescending(archives) && i < |archives|
    ensures archives[i] in Left(archives, i)
    ensures Left(archives, i + 1) == Left(archives, i) - {archives[i]}
    ensures forall n :: n in Left(archives, i) ==> n <= archives[i]
    ensures forall n :: n in archives ==> n in Left(archives, i) || n > archives[i]
  {}

  lemma OneToShift(series: Series, before: Directory, previous: Directory, keep: uint32, todo: set<nat>, num: nat)
    requires series.PartlyShifted(before, previous, keep, todo)
    requires num in todo && (forall n :: n in todo ==> n <= num)
    requires forall n: nat :: series.ArchiveName(n) in before ==> n in todo || n > num
    requires series.ArchiveName(num) in before
    ensures series.ArchiveName(num) in previous
    ensures series.ArchiveName(num + 1) !in previous
  {}

  ghost predicate StepsTo(series: Series, previous: Directory, after: Directory, keep: uint32, num: nat)
    requires series.ArchiveName(num) in previous
  {
    var src, dst := series.ArchiveName(num), series.ArchiveName(num + 1);
    after == if num + 1 >= keep then previous - {src} else (previous - {src})[dst := previous[src]]
  }

  lemma OneShifted(series: Series, before: Directory, previous: Directory, after: Directory,
                   keep: uint32, todo: set<nat>, num: nat)
    requires series.PartlyShifted(before, previous, keep, todo)
    requires num in todo && (forall n :: n in todo ==> n <= num)
    requires forall n: nat :: series.ArchiveName(n) in before ==> n in todo || n > num
    requires series.ArchiveName(num) in previous && StepsTo(series, previous, after, keep, num)
    ensures series.PartlyShifted(before, after, keep, todo - {num})
  {
    series.NumberOfName(num);
    series.NumberOfName(num + 1);
    assert series.UnrelatedSame(before, after);
    assert series.CanonicallyNamed(after);
    forall n: nat
      ensures Lookup(after, series.ArchiveName(n)) == series.ShiftedTo(before, keep, todo - {num}, n)
    {
      NumberShifted(series, before, previous, after, keep, todo, num, n);
    }
  }

  lemma NumberShifted(series: Series, before: Directory, previous: Directory, after: Directory,
                      keep: uint32, todo: set<nat>, num: nat, n: nat)
    requires num in todo && (forall k :: k in todo ==> k <= num)
    requires series.ArchiveName(num) in previous && StepsTo(series, previous, after, keep, num)
    requires Lookup(previous, series.ArchiveName(n)) == series.ShiftedTo(before, keep, todo, n)
    requires Lookup(previous, series.ArchiveName(num)) == series.ShiftedTo(before, keep, todo, num)
    requires num > 0 && num - 1 !in todo ==> series.ArchiveName(num - 1) !in before
    ensures Lookup(after, series.ArchiveName(n)) == series.ShiftedTo(before, keep, todo - {num}, n)
  {
    series.NumberOfName(n);
    series.NumberOfName(num);
    series.NumberOfName(num + 1);
    var src, dst := series.ArchiveName(num), series.ArchiveName(num + 1);
    if n == num {
      SourceGone(previous, after, keep, num, src, dst);
    } else if n == num + 1 {
      DestinationSet(previous, after, keep, num, src, dst);
    } else {
      OthersStay(previous, after, keep, num, src, dst, series.ArchiveName(n));
    }
  }

  lemma SourceGone(previous: Directory, after: Directory, keep: uint32, num: nat, src: string, dst: string)
    requires src in previous && src != dst
    requires after == if num + 1 >= keep then previous - {src} else (previous - {src})[dst := previous[src]]
    ensures Lookup(after, src) == None
  {}

  lemma DestinationSet(previous: Directory, after: Directory, keep: uint32, num: nat, src: string, dst: string)
    requires src in previous && src != dst
    requires after == if num + 1 >= keep then previous - {src} else (previous - {src})[dst := previous[src]]
    ensures Lookup(after, dst) == if num + 1 < keep then Lookup(previous, src) else Lookup(previous, dst)
  {}

  lemma OthersStay(previous: Directory, after: Directory, keep: uint32, num: nat, src: string, dst: string, name: string)
    requires src in previous && name != src && name != dst
    requires after == if num + 1 >= keep then previous - {src} else (previous - {src})[dst := previous[src]]
    ensures Lookup(after, name) == Lookup(previous, name)
  {}
}
