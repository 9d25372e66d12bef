/**
 * The canonical source archive: member order, owners and times of the upstream
 * tarball are dropped; names, bytes and the executable bit are what is left. The
 * tar and gzip encodings and the digest are functions given to the model.
 */
module SourceArchive {
  import opened Basics

  datatype Kind = Directory | Regular | Special

  /** A tar member: its path's parts, whether the path is absolute, and transport metadata `meta` nothing may depend on. */
  datatype Member = Member(parts: seq<string>, rooted: bool, kind: Kind, data: seq<Byte>, executable: bool, meta: int)

  datatype File = File(data: seq<Byte>, mode: int)

  datatype Entry = Entry(name: string, file: File, mtime: int)

  // ---- The order of `sorted` ----

  predicate Below(a: string, b: string) {
    b != "" && (a == "" || a[0] < b[0] || (a[0] == b[0] && Below(a[1..], b[1..])))
  }

  lemma {:induction false} BelowTotal(a: string, b: string)
    ensures !Below(a, a)
    ensures a != b ==> Below(a, b) != Below(b, a)
    decreases |a|
  {
    if a != "" {
      BelowTotal(a[1..], if b != "" then b[1..] else "");
      if b != "" && a[0] == b[0] {
        assert a == [a[0]] + a[1..] && b == [b[0]] + b[1..];
      }
    }
  }

  lemma {:induction false} BelowTransitive(a: string, b: string, c: string)
    requires Below(a, b) && Below(b, c)
    ensures Below(a, c)
    decreases |a|
  {
    if a != "" && a[0] == b[0] && b[0] == c[0] {
      BelowTransitive(a[1..], b[1..], c[1..]);
    }
  }

  /** `k` is where the two strings part: one ends there or has the smaller character. */
  predicate PartAt(a: string, b: string, k: int) {
    0 <= k <= |a| && k < |b| && a[..k] == b[..k] && (k == |a| || a[k] < b[k])
  }

  lemma {:induction false} BelowExact(a: string, b: string)
    ensures Below(a, b) <==> exists k :: PartAt(a, b, k)
    decreases |a|
  {
    forall k | PartAt(a, b, k) && k > 0
      ensures a[0] == b[0]
    {
      assert a[..k][0] == b[..k][0];
    }
    if b != "" && a != "" && a[0] == b[0] {
      BelowExact(a[1..], b[1..]);
      if k :| PartAt(a[1..], b[1..], k) {
        assert a[..k + 1] == [a[0]] + a[1..][..k] && b[..k + 1] == [b[0]] + b[1..][..k];
        assert PartAt(a, b, k + 1);
      }
      if k :| PartAt(a, b, k) {
        assert k != 0;
        assert a[1..][..k - 1] == a[..k][1..] && b[1..][..k - 1] == b[..k][1..];
        assert PartAt(a[1..], b[1..], k - 1);
      }
    } else if b != "" && (a == "" || a[0] < b[0]) {
      assert PartAt(a, b, 0);
    }
  }

  predicate Ascending(names: seq<string>) {
    forall i, j :: 0 <= i < j < |names| ==> Below(names[i], names[j])
  }

  /** `name` put where it belongs in an ascending list. */
  function Insert(names: seq<string>, name: string): (r: seq<string>) {
    if names == [] then [name]
    else if Below(name, names[0]) then [name] + names
    else [names[0]] + Insert(names[1..], name)
  }

  lemma {:induction false} InsertAscends(names: seq<string>, name: string)
    requires Ascending(names) && name !in names
    ensures Ascending(Insert(names, name))
    ensures forall n :: n in Insert(names, name) <==> n in names || n == name
  {
    if names == [] {
    } else if Below(name, names[0]) {
      forall j | 0 <= j < |names|
        ensures Below(name, names[j])
      {
        if j > 0 {
          BelowTransitive(name, names[0], names[j]);
        }
      }
    } else {
      BelowTotal(name, names[0]);
      assert names == [names[0]] + names[1..];
      InsertAscends(names[1..], name);
      var rest := Insert(names[1..], name);
      forall j | 0 <= j < |rest|
        ensures Below(names[0], rest[j])
      {
        assert rest[j] in rest;
        if rest[j] != name {
          var i :| 0 <= i < |names[1..]| && names[1..][i] == rest[j];
          assert names[i + 1] == rest[j];
        }
      }
    }
  }

  /** An ascending list is determined by its elements. */
  lemma {:induction false} AscendingUnique(a: seq<string>, b: seq<string>)
    requires Ascending(a) && Ascending(b) && forall n :: n in a <==> n in b
    ensures a == b
  {
    assert a != [] ==> a[0] in a;
    assert b != [] ==> b[0] in b;
    if a != [] {
      FirstIsLeast(a, b[0]);
      FirstIsLeast(b, a[0]);
      BelowTotal(a[0], b[0]);
      assert a[0] == b[0];
      forall n
        ensures n in a[1..] <==> n in b[1..]
      {
        RestOf(a, n);
        RestOf(b, n);
      }
      AscendingUnique(a[1..], b[1..]);
      assert a == [a[0]] + a[1..] && b == [b[0]] + b[1..];
    }
  }

  lemma FirstIsLeast(a: seq<string>, n: string)
    requires Ascending(a) && n in a
    ensures n == a[0] || Below(a[0], n)
  {
  }

  lemma RestOf(a: seq<string>, n: string)
    requires Ascending(a) && a != []
    ensures n in a[1..] <==> n in a && n != a[0]
  {
    BelowTotal(a[0], a[0]);
    if n in a && n != a[0] {
      var i :| 0 <= i < |a| && a[i] == n;
      assert a[1..][i - 1] == n;
    }
    if n in a[1..] {
      var i :| 0 <= i < |a[1..]| && a[1..][i] == n;
      assert a[i + 1] == n;
      assert Below(a[0], a[i + 1]);
    }
  }

  // ---- The writer ----

  /** The entries written for a list of names. */
  function Listed(entries: map<string, File>, names: seq<string>, epoch: int): seq<Entry>
    requires forall n :: n in names ==> n in entries
  {
    seq(|names|, i requires 0 <= i < |names| => Entry(names[i], entries[names[i]], epoch))
  }

  /** The one listing of a map: its names ascending, every mtime the epoch. */
  ghost predicate Canonical(entries: map<string, File>, epoch: int, listed: seq<Entry>) {
    exists names :: Ascending(names) && (forall n :: n in names <==> n in entries) && listed == Listed(entries, names, epoch)
  }

  lemma CanonicalUnique(entries: map<string, File>, epoch: int, a: seq<Entry>, b: seq<Entry>)
    requires Canonical(entries, epoch, a) && Canonical(entries, epoch, b)
    ensures a == b
  {
    hide Listed, Ascending;
    var m :| Ascending(m) && (forall n :: n in m <==> n in entries) && a == Listed(entries, m, epoch);
    var k :| Ascending(k) && (forall n :: n in k <==> n in entries) && b == Listed(entries, k, epoch);
    AscendingUnique(m, k);
  }

  /** Every entry listed is one of the map's, at the epoch, and every name is listed. */
  lemma CanonicalEntries(entries: map<string, File>, epoch: int, listed: seq<Entry>)
    requires Canonical(entries, epoch, listed)
    ensures |listed| == |entries.Keys|
    ensures forall e :: e in listed ==> e.name in entries && e.file == entries[e.name] && e.mtime == epoch
    ensures forall n :: n in entries ==> exists e :: e in listed && e.name == n
  {
    var names :| Ascending(names) && (forall n :: n in names <==> n in entries) && listed == Listed(entries, names, epoch);
    forall i | 0 <= i < |names|
      ensures listed[i].name == names[i]
    {
    }
    forall n | n in entries
      ensures exists e :: e in listed && e.name == n
    {
      var i :| 0 <= i < |names| && names[i] == n;
      assert listed[i] in listed;
    }
    AscendingCount(names);
    assert entries.Keys == set n | n in names;
  }

  lemma {:induction false} AscendingCount(names: seq<string>)
    requires Ascending(names)
    ensures |set n | n in names| == |names|
  {
    if names != [] {
      AscendingCount(names[1..]);
      RestOf(names, names[0]);
      assert (set n | n in names) == (set n | n in names[1..]) + {names[0]};
    }
  }

  /** A listing tells the map it came from. */
  lemma CanonicalInjective(a: map<string, File>, b: map<string, File>, epoch: int, listed: seq<Entry>)
    requires Canonical(a, epoch, listed) && Canonical(b, epoch, listed)
    ensures a == b
  {
    hide Ascending;
    var m :| Ascending(m) && (forall n :: n in m <==> n in a) && listed == Listed(a, m, epoch);
    var k :| Ascending(k) && (forall n :: n in k <==> n in b) && listed == Listed(b, k, epoch);
    assert |m| == |listed| == |k|;
    forall i | 0 <= i < |m|
      ensures m[i] == k[i] && a[m[i]] == b[m[i]]
    {
      assert m[i] in m && k[i] in k;
      assert listed[i] == Entry(m[i], a[m[i]], epoch) == Entry(k[i], b[k[i]], epoch);
    }
    assert m == k;
    forall n | n in a
      ensures n in b && a[n] == b[n]
    {
      var i :| 0 <= i < |m| && m[i] == n;
    }
  }

  class Writer {
    const epoch: int
    var entries: map<string, File>

    constructor (epoch: int)
      ensures this.epoch == epoch && entries == map[]
    {
      this.epoch := epoch;
      entries := map[];
    }

    /** `Writer.add`; false where the source exits on a duplicate. */
    method Add(name: string, data: seq<Byte>, executable: bool) returns (ok: bool)
      modifies this`entries
      ensures ok <==> name !in old(entries)
      ensures entries == if ok then old(entries)[name := File(data, if executable then 493 else 420)] else old(entries)
    {
      if name in entries {
        return false;
      }
      entries := entries[name := File(data, if executable then 493 else 420)];
      return true;
    }

    /** The loop of `Writer.bytes`; the names are sorted by insertion, in whatever order the map gives them. */
    method List() returns (listed: seq<Entry>)
      ensures Canonical(entries, epoch, listed)
    {
      var names: seq<string> := [];
      var left := entries.Keys;
      while left != {}
        invariant left <= entries.Keys && Ascending(names)
        invariant forall n :: n in names <==> n in entries && n !in left
        decreases left
      {
        var name :| name in left;
        InsertAscends(names, name);
        names := Insert(names, name);
        left := left - {name};
      }
      listed := [];
      for i := 0 to |names|
        invariant listed == Listed(entries, names, epoch)[..i]
      {
        assert names[i] in names;
        listed := listed + [Entry(names[i], entries[names[i]], epoch)];
      }
      assert listed == Listed(entries, names, epoch);
    }
  }

  // ---- Normalising an upstream archive ----

  function Join(parts: seq<string>): string {
    if parts == [] then "" else if |parts| == 1 then parts[0] else parts[0] + "/" + Join(parts[1..])
  }

  /** The name below the dropped top directory. */
  function NameOf(m: Member): string {
    "upstream/" + Join(if m.parts == [] then [] else m.parts[1..])
  }

  predicate Supported(m: Member) {
    m.kind == Regular && |m.parts| >= 2 && !m.rooted && ".." !in m.parts
  }

  function FileOf(m: Member): File {
    File(m.data, if m.executable then 493 else 420)
  }

  /** The entries after adding the members one by one; None where the source exits. */
  function Normalized(members: seq<Member>): Option<map<string, File>> {
    if members == [] then Some(map[]) else
    var m := members[|members| - 1];
    match Normalized(members[..|members| - 1])
    case None => None
    case Some(entries) =>
      if m.kind == Directory then Some(entries)
      else if !Supported(m) || NameOf(m) in entries then None
      else Some(entries[NameOf(m) := FileOf(m)])
  }

  /** What an archive says: names, bytes and executable bits, without order or metadata. */
  function Content(members: seq<Member>): set<(string, File)> {
    set m | m in members && m.kind != Directory :: (NameOf(m), FileOf(m))
  }

  ghost predicate Acceptable(members: seq<Member>) {
    && (forall m :: m in members && m.kind != Directory ==>
          m.kind == Regular && |m.parts| >= 2 && !m.rooted && ".." !in m.parts)
    && (forall i, j :: 0 <= i < j < |members| && members[i].kind != Directory && members[j].kind != Directory ==>
          NameOf(members[i]) != NameOf(members[j]))
  }

  /** `normalized_upstream` up to the encoding: every member added, then listed. */
  method NormalizeUpstream(members: seq<Member>, epoch: int) returns (listed: Option<seq<Entry>>)
    ensures listed.Some? <==> Normalized(members).Some?
    ensures listed.Some? ==> Canonical(Normalized(members).value, epoch, listed.value)
  {
    var writer := new Writer(epoch);
    for i := 0 to |members|
      invariant Normalized(members[..i]) == Some(writer.entries)
    {
      var m := members[i];
      assert members[..i + 1][..i] == members[..i];
      if m.kind == Directory {
        continue;
      }
      if m.kind != Regular || |m.parts| < 2 || m.rooted || ".." in m.parts {
        NoneStays(members, i + 1);
        return None;
      }
      var ok := writer.Add("upstream/" + Join(m.parts[1..]), m.data, m.executable);
      if !ok {
        NoneStays(members, i + 1);
        return None;
      }
    }
    assert members[..|members|] == members;
    var entries := writer.List();
    return Some(entries);
  }

  lemma {:induction false} NoneStays(members: seq<Member>, i: nat)
    requires i <= |members| && Normalized(members[..i]).None?
    ensures Normalized(members).None?
    decreases |members|
  {
    if i == |members| {
      assert members[..i] == members;
    } else {
      var front := members[..|members| - 1];
      assert front[..i] == members[..i];
      NoneStays(front, i);
    }
  }

  ghost predicate Holds(entries: map<string, File>, content: set<(string, File)>) {
    forall name, file :: (name, file) in content <==> name in entries && entries[name] == file
  }

  lemma ContentSnoc(front: seq<Member>, m: Member)
    ensures Content(front + [m]) == Content(front) + (if m.kind == Directory then {} else {(NameOf(m), FileOf(m))})
  {
    hide NameOf, FileOf;
    assert forall x :: x in front + [m] <==> x in front || x == m;
  }

  lemma {:induction false} NormalizedHolds(members: seq<Member>)
    requires Normalized(members).Some?
    ensures Holds(Normalized(members).value, Content(members))
  {
    hide NameOf, FileOf, Supported, Content, Holds;
    if members == [] {
      NothingSaid();
    } else {
      var front, m := members[..|members| - 1], members[|members| - 1];
      assert members == front + [m];
      NormalizedHolds(front);
      ContentSnoc(front, m);
      if m.kind == Directory {
        assert Content(front) + {} == Content(front);
      } else {
        HoldsMore(Normalized(front).value, Content(front), NameOf(m), FileOf(m));
      }
    }
  }

  lemma HoldsMore(entries: map<string, File>, content: set<(string, File)>, name: string, file: File)
    requires Holds(entries, content) && name !in entries
    ensures Holds(entries[name := file], content + {(name, file)})
  {
    var after, more := entries[name := file], content + {(name, file)};
    forall n: string, f: File
      ensures (n, f) in more <==> n in after && after[n] == f
    {
      assert (n, f) in content <==> n in entries && entries[n] == f;
    }
  }

  lemma NothingSaid()
    ensures Holds(map[], Content([]))
  {
    assert Content([]) == {};
  }

  /** Exactly the archives of supported files with distinct names are accepted. */
  lemma {:induction false} AcceptedExact(members: seq<Member>)
    ensures Normalized(members).Some? <==> Acceptable(members)
  {
    hide NameOf, FileOf, Supported;
    if members != [] {
      var front, m := members[..|members| - 1], members[|members| - 1];
      assert members == front + [m];
      AcceptedExact(front);
      if Normalized(front).Some? {
        NormalizedHolds(front);
        NameTaken(front, NameOf(m));
      }
      AcceptableSnoc(front, m);
    }
  }

  ghost predicate Taken(members: seq<Member>, name: string) {
    exists i :: 0 <= i < |members| && members[i].kind != Directory && NameOf(members[i]) == name
  }

  lemma NameTaken(members: seq<Member>, name: string)
    requires Normalized(members).Some?
    ensures name in Normalized(members).value <==> Taken(members, name)
  {
    hide NameOf, FileOf, Supported, Normalized;
    NormalizedHolds(members);
    var entries := Normalized(members).value;
    if name in entries {
      assert (name, entries[name]) in Content(members);
      var m :| m in members && m.kind != Directory && NameOf(m) == name;
      var i :| 0 <= i < |members| && members[i] == m;
    }
    if Taken(members, name) {
      var i :| 0 <= i < |members| && members[i].kind != Directory && NameOf(members[i]) == name;
      assert (name, FileOf(members[i])) in Content(members);
    }
  }

  lemma AcceptableSnoc(front: seq<Member>, m: Member)
    ensures Acceptable(front + [m]) <==>
            Acceptable(front) && (m.kind != Directory ==> Supported(m) && !Taken(front, NameOf(m)))
  {
    hide NameOf;
    var members := front + [m];
    assert forall x :: x in members <==> x in front || x == m;
    assert members[|front|] == m;
    if m.kind != Directory && Taken(front, NameOf(m)) {
      var i :| 0 <= i < |front| && front[i].kind != Directory && NameOf(front[i]) == NameOf(m);
      assert members[i] == front[i];
      assert !Acceptable(members);
    }
    if Acceptable(members) {
      forall i, j | 0 <= i < j < |front| && front[i].kind != Directory && front[j].kind != Directory
        ensures NameOf(front[i]) != NameOf(front[j])
      {
        assert members[i] == front[i] && members[j] == front[j];
      }
    }
  }

  /** Two accepted archives give the same listing exactly when they say the same, whatever their order and metadata. */
  lemma CanonicalArchive(
      first: seq<Member>, second: seq<Member>, epoch: int, a: seq<Entry>, b: seq<Entry>)
    requires Normalized(first).Some? && Normalized(second).Some?
    requires Canonical(Normalized(first).value, epoch, a) && Canonical(Normalized(second).value, epoch, b)
    ensures a == b <==> Content(first) == Content(second)
  {
    hide Canonical, Content, Normalized;
    var m, k := Normalized(first).value, Normalized(second).value;
    NormalizedHolds(first);
    NormalizedHolds(second);
    if Content(first) == Content(second) {
      forall n
        ensures n in m <==> n in k
        ensures n in m ==> m[n] == k[n]
      {
        assert n in m ==> (n, m[n]) in Content(first);
        assert n in k ==> (n, k[n]) in Content(second);
      }
      assert m == k;
      CanonicalUnique(m, epoch, a, b);
    }
    if a == b {
      CanonicalInjective(m, k, epoch, a);
      forall pair
        ensures pair in Content(first) <==> pair in Content(second)
      {
        var (name, file) := pair;
      }
    }
  }

  // ---- Names below the top directory ----

  /** The parts of a path hold no slash. */
  predicate Sliced(parts: seq<string>) {
    forall p :: p in parts ==> '/' !in p
  }

  function FirstSlash(s: string): (i: int)
    ensures 0 <= i <= |s|
  {
    if s == "" || s[0] == '/' then 0 else 1 + FirstSlash(s[1..])
  }

  lemma {:induction false} FirstSlashAt(part: string, rest: string)
    requires '/' !in part && (rest == "" || rest[0] == '/')
    ensures FirstSlash(part + rest) == |part|
  {
    if part == "" {
      assert part + rest == rest;
    } else {
      assert part[0] in part;
      assert (part + rest)[1..] == part[1..] + rest;
      FirstSlashAt(part[1..], rest);
    }
  }

  /** Behind the first part: nothing, or a slash and the other parts. */
  function Behind(parts: seq<string>): string
    requires parts != []
  {
    if |parts| == 1 then "" else "/" + Join(parts[1..])
  }

  lemma JoinHead(parts: seq<string>)
    requires parts != [] && Sliced(parts)
    ensures Join(parts) == parts[0] + Behind(parts)
    ensures FirstSlash(Join(parts)) == |parts[0]|
  {
    assert parts[0] in parts;
    assert Join(parts) == parts[0] + Behind(parts);
    FirstSlashAt(parts[0], Behind(parts));
  }

  lemma {:induction false} JoinInjective(a: seq<string>, b: seq<string>)
    requires a != [] && b != [] && Sliced(a) && Sliced(b) && Join(a) == Join(b)
    ensures a == b
  {
    JoinHead(a);
    JoinHead(b);
    var s, n := Join(a), |a[0]|;
    assert a[0] == s[..n] == b[0];
    assert Behind(a) == s[n..] == Behind(b);
    if |a| > 1 && |b| > 1 {
      assert Behind(a)[1..] == Join(a[1..]) && Behind(b)[1..] == Join(b[1..]);
      JoinInjective(a[1..], b[1..]);
    }
    assert a == [a[0]] + a[1..] && b == [b[0]] + b[1..];
  }

  /** Two members get one name exactly when their paths agree below the top directory; the modes tell the executable bit. */
  lemma NameExact(a: Member, b: Member)
    requires Supported(a) && Supported(b) && Sliced(a.parts) && Sliced(b.parts)
    ensures NameOf(a) == NameOf(b) <==> a.parts[1..] == b.parts[1..]
    ensures FileOf(a) == FileOf(b) <==> a.data == b.data && a.executable == b.executable
  {
    if NameOf(a) == NameOf(b) {
      var top := "upstream/";
      assert NameOf(a)[|top|..] == Join(a.parts[1..]) && NameOf(b)[|top|..] == Join(b.parts[1..]);
      JoinInjective(a.parts[1..], b.parts[1..]);
    }
  }

  /** What a source tree is: paths below the top directory, bytes, executable bits. */
  function Tree(members: seq<Member>): set<(seq<string>, seq<Byte>, bool)> {
    set m | m in members && m.kind != Directory && m.parts != [] :: (m.parts[1..], m.data, m.executable)
  }

  ghost predicate Proper(members: seq<Member>) {
    forall m :: m in members && m.kind != Directory ==> Supported(m) && Sliced(m.parts)
  }

  lemma ContentWithin(first: seq<Member>, second: seq<Member>)
    requires Proper(first) && Proper(second)
    ensures Content(first) <= Content(second) <==> Tree(first) <= Tree(second)
  {
    hide NameOf, FileOf, Supported, Sliced;
    if Content(first) <= Content(second) {
      forall m | m in first && m.kind != Directory && m.parts != []
        ensures (m.parts[1..], m.data, m.executable) in Tree(second)
      {
        assert (NameOf(m), FileOf(m)) in Content(second);
        var k :| k in second && k.kind != Directory && NameOf(k) == NameOf(m) && FileOf(k) == FileOf(m);
        SupportedParts(k);
        NameExact(m, k);
      }
    }
    if Tree(first) <= Tree(second) {
      forall m | m in first && m.kind != Directory
        ensures (NameOf(m), FileOf(m)) in Content(second)
      {
        SupportedParts(m);
        assert (m.parts[1..], m.data, m.executable) in Tree(second);
        var k :| k in second && k.kind != Directory && k.parts != []
                 && k.parts[1..] == m.parts[1..] && k.data == m.data && k.executable == m.executable;
        NameExact(m, k);
      }
    }
  }

  lemma SupportedParts(m: Member)
    requires Supported(m)
    ensures |m.parts| >= 2
  {
  }

  /**
   * Two accepted archives give the same listing exactly when they hold the same tree
   * below their top directories: neither the order, nor the top directory's name, nor
   * any metadata matters, and nothing else is dropped.
   */
  lemma CanonicalTree(first: seq<Member>, second: seq<Member>, epoch: int, a: seq<Entry>, b: seq<Entry>)
    requires Proper(first) && Proper(second) && Normalized(first).Some? && Normalized(second).Some?
    requires Canonical(Normalized(first).value, epoch, a) && Canonical(Normalized(second).value, epoch, b)
    ensures a == b <==> Tree(first) == Tree(second)
  {
    hide *;
    CanonicalArchive(first, second, epoch, a, b);
    ContentWithin(first, second);
    ContentWithin(second, first);
    assert Content(first) == Content(second) <==> Content(first) <= Content(second) && Content(second) <= Content(first);
    assert Tree(first) == Tree(second) <==> Tree(first) <= Tree(second) && Tree(second) <= Tree(first);
  }

  // ---- The content digest's stream ----

  /** What is hashed for a list of names and digests: each name, a NUL, its digest. */
  function Stream(files: seq<(seq<Byte>, seq<Byte>)>): seq<Byte> {
    if files == [] then [] else files[0].0 + [0] + files[0].1 + Stream(files[1..])
  }

  predicate Digested(files: seq<(seq<Byte>, seq<Byte>)>) {
    forall f :: f in files ==> 0 !in f.0 && |f.1| == 32
  }

  function FirstNul(s: seq<Byte>): (i: int)
    ensures 0 <= i <= |s|
  {
    if s == [] || s[0] == 0 then 0 else 1 + FirstNul(s[1..])
  }

  lemma {:induction false} FirstNulAt(name: seq<Byte>, rest: seq<Byte>)
    requires 0 !in name
    ensures FirstNul(name + [0] + rest) == |name|
  {
    if name != [] {
      assert name[0] in name;
      assert (name + [0] + rest)[1..] == name[1..] + [0] + rest;
      FirstNulAt(name[1..], rest);
    }
  }

  /** A stream says where its first name ends, and so what it is and what follows. */
  lemma StreamHead(files: seq<(seq<Byte>, seq<Byte>)>)
    requires Digested(files) && files != []
    ensures var s, n := Stream(files), FirstNul(Stream(files));
            && n + 33 <= |s|
            && files[0] == (s[..n], s[n + 1..n + 33]) && Stream(files[1..]) == s[n + 33..]
  {
    assert files[0] in files;
    var (name, digest) := files[0];
    var rest := Stream(files[1..]);
    assert name + [0] + digest + rest == name + [0] + (digest + rest);
    FirstNulAt(name, digest + rest);
    var s, n := Stream(files), |name|;
    assert s == name + [0] + (digest + rest);
    assert s[..n] == name && s[n + 1..] == digest + rest;
    assert s[n + 1..n + 33] == s[n + 1..][..32] == digest;
    assert s[n + 33..] == s[n + 1..][32..] == rest;
  }

  /** Different lists of NUL-free names with 32-byte digests are never hashed as the same stream. */
  lemma {:induction false} StreamInjective(a: seq<(seq<Byte>, seq<Byte>)>, b: seq<(seq<Byte>, seq<Byte>)>)
    requires Digested(a) && Digested(b) && Stream(a) == Stream(b)
    ensures a == b
  {
    assert |Stream(a)| == 0 <==> a == [];
    assert |Stream(b)| == 0 <==> b == [];
    if a != [] {
      StreamHead(a);
      StreamHead(b);
      StreamInjective(a[1..], b[1..]);
      assert a == [a[0]] + a[1..] && b == [b[0]] + b[1..];
    }
  }

  function Pairs(files: map<seq<Byte>, seq<Byte>>, names: seq<seq<Byte>>): seq<(seq<Byte>, seq<Byte>)>
    requires forall n :: n in names ==> n in files
  {
    seq(|names|, i requires 0 <= i < |names| => (names[i], files[names[i]]))
  }

  /** Two maps from NUL-free names to digests hashed as one stream are one map, in whatever order each was walked. */
  lemma DigestedMapInjective(
      a: map<seq<Byte>, seq<Byte>>, b: map<seq<Byte>, seq<Byte>>, m: seq<seq<Byte>>, k: seq<seq<Byte>>)
    requires (forall n :: n in m <==> n in a) && (forall n :: n in k <==> n in b)
    requires forall n :: n in a ==> 0 !in n && |a[n]| == 32
    requires forall n :: n in b ==> 0 !in n && |b[n]| == 32
    requires Stream(Pairs(a, m)) == Stream(Pairs(b, k))
    ensures a == b
  {
    PairsDigested(a, m);
    PairsDigested(b, k);
    StreamInjective(Pairs(a, m), Pairs(b, k));
    hide Stream;
    assert |m| == |Pairs(a, m)| == |Pairs(b, k)| == |k|;
    forall i | 0 <= i < |m|
      ensures m[i] == k[i] && a[m[i]] == b[m[i]]
    {
      assert m[i] in m && k[i] in k;
      assert Pairs(a, m)[i] == (m[i], a[m[i]]) && Pairs(b, k)[i] == (k[i], b[k[i]]);
    }
    assert m == k;
    forall n | n in a
      ensures n in b && a[n] == b[n]
    {
      var i :| 0 <= i < |m| && m[i] == n;
    }
  }

  lemma PairsDigested(files: map<seq<Byte>, seq<Byte>>, names: seq<seq<Byte>>)
    requires forall n :: n in names ==> n in files
    requires forall n :: n in files ==> 0 !in n && |files[n]| == 32
    ensures Digested(Pairs(files, names))
  {
    forall f | f in Pairs(files, names)
      ensures 0 !in f.0 && |f.1| == 32
    {
      var i :| 0 <= i < |names| && Pairs(files, names)[i] == f;
      assert names[i] in names;
    }
  }
}
