/** The cache directory: names bound to files, where an open handle keeps writing
    to the file it opened whatever happens to the name. */
module Files {
  import opened Common

  type Inode = nat

  datatype Disk = Disk(names: map<string, Inode>, data: map<Inode, Bytes>, next: Inode) {

    /** No two names share a file, and inode numbers are never reused. */
    ghost predicate Valid() {
      && (forall n :: n in names ==> names[n] in data)
      && (forall m, n :: m in names && n in names && names[m] == names[n] ==> m == n)
      && (forall i :: i in data ==> i < next)
    }

    function Read(name: string): Bytes
      requires Valid() && name in names
    {
      data[names[name]]
    }

    /** What a directory listing with contents shows. */
    function Entries(): map<string, Bytes>
      requires Valid()
    {
      map n | n in names :: data[names[n]]
    }

    /** The file a truncating open hands back: the one named, or a new one. */
    function Handle(name: string): Inode {
      if name in names then names[name] else next
    }

    /** Open for writing, creating the file or cutting it to nothing. */
    function OpenTruncated(name: string): (r: Disk)
      requires Valid()
      ensures r.Valid() && name in r.names && r.names[name] == Handle(name)
    {
      if name in names then Disk(names, data[names[name] := []], next)
      else Disk(names[name := next], data[next := []], next + 1)
    }

    /** Put `content` in an open file. */
    function Stored(file: Inode, content: Bytes): (r: Disk)
      requires Valid() && file in data
      ensures r.Valid() && r.names == names
    {
      Disk(names, data[file := content], next)
    }

    function Removed(name: string): (r: Disk)
      requires Valid()
      ensures r.Valid()
    {
      Disk(names - {name}, data, next)
    }

    /** Bind `to` to the file of `from`, in one step, replacing what `to` named. */
    function Renamed(from: string, to: string): (r: Disk)
      requires Valid() && from in names && from != to
      ensures r.Valid()
    {
      Disk((names - {from})[to := names[from]], data, next)
    }
  }

  lemma StoredTwice(d: Disk, file: Inode, a: Bytes, b: Bytes)
    requires d.Valid() && file in d.data
    ensures d.Stored(file, a).Stored(file, b) == d.Stored(file, b)
  {
    assert d.data[file := a][file := b] == d.data[file := b];
  }

  lemma StoredEntries(d: Disk, name: string, content: Bytes)
    requires d.Valid() && name in d.names
    ensures d.Stored(d.names[name], content).Entries() == d.Entries()[name := content]
  {
  }

  lemma OpenedEntries(d: Disk, name: string)
    requires d.Valid()
    ensures d.OpenTruncated(name).Entries() == d.Entries()[name := []]
  {
  }

  lemma RemovedEntries(d: Disk, name: string)
    requires d.Valid()
    ensures d.Removed(name).Entries() == d.Entries() - {name}
  {
  }

  lemma RenamedEntries(d: Disk, from: string, to: string)
    requires d.Valid() && from in d.names && from != to
    ensures d.Renamed(from, to).Entries() == (d.Entries() - {from})[to := d.Read(from)]
  {
  }

  lemma Overwritten<K, V>(m: map<K, V>, k: K, a: V, b: V)
    ensures m[k := a][k := b] == m[k := b] && m[k := b] - {k} == m - {k}
  {
  }

  /** Writing a file through its handle touches the entry of its name alone. */
  lemma WrittenEntries(d: Disk, name: string, content: Bytes)
    requires d.Valid()
    ensures var w := d.OpenTruncated(name).Stored(d.Handle(name), content);
      && name in w.names && w.Read(name) == content
      && w.Entries() == d.Entries()[name := content]
      && w.Entries() - {name} == d.Entries() - {name}
  {
    OpenedEntries(d, name);
    StoredEntries(d.OpenTruncated(name), name, content);
    Overwritten(d.Entries(), name, [], content);
  }

  /** The temporary name of a pull. */
  function Partial(digest: string): string {
    digest + ".partial"
  }

  /** A name that always exists, as a directory. */
  predicate NamesDirectory(name: string) {
    name == "" || name == "." || name == ".."
  }

  /** The name of a file within the flat cache directory. */
  predicate FileName(name: string) {
    '/' !in name && !NamesDirectory(name)
  }

  /** The temporary name of some pull. */
  predicate IsPartial(name: string) {
    |name| >= 8 && name[|name| - 8..] == ".partial" && FileName(name[..|name| - 8])
  }

  predicate IsDigest(name: string) {
    |name| == 64 && forall c :: c in name ==> '0' <= c <= '9' || 'a' <= c <= 'f'
  }

  /** Temporary names never collide with each other or with a digest. */
  lemma PartialNames(a: string, b: string)
    ensures FileName(a) ==> IsPartial(Partial(a))
    ensures IsPartial(b) ==> b == Partial(b[..|b| - 8])
    ensures Partial(a) != a && (Partial(a) == Partial(b) ==> a == b)
    ensures IsDigest(a) ==> !IsPartial(a) && FileName(a)
  {
    assert Partial(a)[..|a|] == a && Partial(a)[|a|..] == ".partial";
    assert Partial(b)[..|b|] == b;
    assert IsPartial(a) ==> a[|a| - 8..][0] == '.' && a[|a| - 8] in a;
    assert IsPartial(b) ==> b == b[..|b| - 8] + b[|b| - 8..];
  }
}
