/** The bounded audit of a home directory: a recursive walk that lists the files to audit, and a second pass that
  * reads each of them. */
module HomeAudit {
  import opened Wrappers

  const MAX_VISITS: nat := 4096
  const MAX_FILE_BYTES: nat := 8 * 1024 * 1024
  const MAX_FILES: nat := 1024
  const MAX_TOTAL_BYTES: nat := 64 * 1024 * 1024

  /** A directory as the walk finds it, its entries in name order. */
  datatype Scan = Missing | Broken | Entries(list: seq<Entry>)
  datatype Entry = Entry(name: string, info: Info)
  datatype Info = Vanished | Unreadable | Link | Dir(scan: Scan) | Special | File(size: nat)

  datatype Listed = Listed(path: string, size: nat)
  datatype Truncated = Truncated(entries: nat, bytes: nat, oversize: nat)

  datatype Error = HomeIo | StatFailed | PathInvalid | ContainsSecret(path: string) | Crash

  // ----- the walk -----

  /** What became of one visited entry. */
  datatype Fate =
    | Entered(path: string)
    | Skipped(path: string)
    | Churned(path: string)
    | Cut(path: string)
    | Irregular(path: string)
    | Over(path: string, size: nat)
    | Kept(path: string, size: nat)

  function Files(fates: seq<Fate>): seq<Listed> {
    if fates == [] then []
    else
      var f := fates[|fates| - 1];
      if f.Kept? then Files(fates[..|fates| - 1]) + [Listed(f.path, f.size)] else Files(fates[..|fates| - 1])
  }

  function SizeSum(files: seq<Listed>): nat {
    if files == [] then 0 else SizeSum(files[..|files| - 1]) + files[|files| - 1].size
  }

  predicate IsTruncated(f: Fate) {
    f.Churned? || f.Cut? || f.Irregular? || f.Over?
  }

  function Truncate(t: Truncated, f: Fate): Truncated {
    if f.Over? then Truncated(t.entries + 1, t.bytes + f.size, t.oversize + if f.size > MAX_FILE_BYTES then 1 else 0)
    else if IsTruncated(f) then Truncated(t.entries + 1, t.bytes, t.oversize)
    else t
  }

  function TruncatedOf(fates: seq<Fate>): Truncated {
    if fates == [] then Truncated(0, 0, 0) else Truncate(TruncatedOf(fates[..|fates| - 1]), fates[|fates| - 1])
  }

  function EnteredIn(fates: seq<Fate>): nat {
    if fates == [] then 0 else EnteredIn(fates[..|fates| - 1]) + if fates[|fates| - 1].Entered? then 1 else 0
  }

  function SkippedIn(fates: seq<Fate>): nat {
    if fates == [] then 0 else SkippedIn(fates[..|fates| - 1]) + if fates[|fates| - 1].Skipped? then 1 else 0
  }

  function PathOf(prefix: string, name: string): string {
    if prefix == "" then name else prefix + "/" + name
  }

  function Judge(e: Entry, path: string, before: seq<Fate>): Fate
    requires !e.info.Unreadable?
  {
    if e.info.Vanished? then Churned(path)
    else if |before| + 1 > MAX_VISITS then Cut(path)
    else
      match e.info
      case Link => Skipped(path)
      case Dir(_) => Entered(path)
      case Special => Irregular(path)
      case File(size) =>
        if |Files(before)| >= MAX_FILES || size > MAX_FILE_BYTES || SizeSum(Files(before)) + size > MAX_TOTAL_BYTES
        then Over(path, size) else Kept(path, size)
  }

  lemma FilesOneMore(fates: seq<Fate>, f: Fate)
    ensures Files(fates + [f]) == if f.Kept? then Files(fates) + [Listed(f.path, f.size)] else Files(fates)
  {
    assert (fates + [f])[..|fates|] == fates;
  }

  lemma CountsOneMore(fates: seq<Fate>, f: Fate)
    ensures TruncatedOf(fates + [f]) == Truncate(TruncatedOf(fates), f)
    ensures SkippedIn(fates + [f]) == SkippedIn(fates) + if f.Skipped? then 1 else 0
    ensures Inspected(fates + [f]) == Inspected(fates) + if f.Churned? || f.Cut? then 0 else 1
  {
    assert (fates + [f])[..|fates|] == fates;
  }

  lemma OneFileMore(files: seq<Listed>, x: Listed)
    ensures SizeSum(files + [x]) == SizeSum(files) + x.size
  {
    assert (files + [x])[..|files|] == files;
  }

  /** The fates of a directory's entries. A cut ends this directory, and the directories above go on. */
  function Walk(entries: seq<Entry>, prefix: string, fates: seq<Fate>): Result<seq<Fate>, Error>
    decreases entries
  {
    if entries == [] then Ok(fates)
    else if entries[0].info.Unreadable? then Err(StatFailed)
    else
      var e := entries[0];
      var path := PathOf(prefix, e.name);
      var f := Judge(e, path, fates);
      if f.Cut? then Ok(fates + [f])
      else if f.Entered? then
        match WalkInto(e.info.scan, path, fates + [f])
        case Err(error) => Err(error)
        case Ok(more) => Walk(entries[1..], prefix, more)
      else Walk(entries[1..], prefix, fates + [f])
  }

  function WalkInto(scan: Scan, prefix: string, fates: seq<Fate>): Result<seq<Fate>, Error>
    decreases scan
  {
    match scan
    case Missing => Ok(fates)
    case Broken => Err(HomeIo)
    case Entries(list) => Walk(list, prefix, fates)
  }

  lemma WalkFrom(entries: seq<Entry>, i: nat, prefix: string, fates: seq<Fate>)
    requires i < |entries|
    ensures entries[i].info.Unreadable? ==> Walk(entries[i..], prefix, fates) == Err(StatFailed)
    ensures !entries[i].info.Unreadable? ==>
            var path := PathOf(prefix, entries[i].name);
            var f := Judge(entries[i], path, fates);
            Walk(entries[i..], prefix, fates) ==
            if f.Cut? then Ok(fates + [f])
            else if !f.Entered? then Walk(entries[i + 1..], prefix, fates + [f])
            else
              match WalkInto(entries[i].info.scan, path, fates + [f])
              case Err(error) => Err(error)
              case Ok(more) => Walk(entries[i + 1..], prefix, more)
  {
    assert entries[i..][0] == entries[i] && entries[i..][1..] == entries[i + 1..];
  }

  class Audit {
    var files: seq<Listed>
    var bytes: nat
    var skipped: nat
    var visited: nat
    var truncated: Truncated
    ghost var fates: seq<Fate>

    /** The counters say what happened to the visited entries. */
    ghost predicate Valid()
      reads this
    {
      && visited == |fates| && files == Files(fates) && bytes == SizeSum(files)
      && skipped == SkippedIn(fates) && truncated == TruncatedOf(fates)
    }

    constructor ()
      ensures Valid() && fates == []
    {
      files, bytes, skipped, visited, truncated, fates := [], 0, 0, 0, Truncated(0, 0, 0), [];
    }

    method RelativeEntries(scan: Scan, prefix: string) returns (error: Option<Error>)
      requires Valid()
      modifies this
      ensures error.None? ==> Valid() && WalkInto(scan, prefix, old(fates)) == Ok(fates)
      ensures error.Some? ==> WalkInto(scan, prefix, old(fates)) == Err(error.value)
      decreases scan
    {
      if scan.Missing? { return None; }
      if scan.Broken? { return Some(HomeIo); }
      var entries := scan.list;
      ghost var start := fates;
      for i := 0 to |entries|
        invariant Valid() && Walk(entries[i..], prefix, fates) == Walk(entries, prefix, start)
      {
        var e := entries[i];
        WalkFrom(entries, i, prefix, fates);
        if e.info.Unreadable? { return Some(StatFailed); }
        var stop, enter := Visit(e, PathOf(prefix, e.name));
        if stop { return None; }
        if enter {
          var inner := RelativeEntries(e.info.scan, PathOf(prefix, e.name));
          if inner.Some? { return inner; }
        }
      }
      assert entries[|entries|..] == [];
      return None;
    }

    /** One entry of the listing, short of walking into it. */
    method Visit(e: Entry, path: string) returns (stop: bool, enter: bool)
      requires Valid() && !e.info.Unreadable?
      modifies this
      ensures Valid() && fates == old(fates) + [Judge(e, path, old(fates))]
      ensures stop == Judge(e, path, old(fates)).Cut? && enter == Judge(e, path, old(fates)).Entered?
    {
      stop, enter := false, false;
      ghost var f := Judge(e, path, fates);
      FilesOneMore(fates, f);
      CountsOneMore(fates, f);
      fates := fates + [f];
      visited := visited + 1;
      if e.info.Vanished? {
        truncated := truncated.(entries := truncated.entries + 1);
        return;
      }
      if visited > MAX_VISITS {
        truncated := truncated.(entries := truncated.entries + 1);
        stop := true;
        return;
      }
      match e.info
      case Link =>
        skipped := skipped + 1;
      case Dir(_) =>
        enter := true;
      case Special =>
        truncated := truncated.(entries := truncated.entries + 1);
      case File(size) =>
        if |files| >= MAX_FILES || size > MAX_FILE_BYTES || bytes + size > MAX_TOTAL_BYTES {
          truncated := truncated.(entries := truncated.entries + 1, bytes := truncated.bytes + size);
          if size > MAX_FILE_BYTES { truncated := truncated.(oversize := truncated.oversize + 1); }
        } else {
          OneFileMore(files, Listed(path, size));
          files := files + [Listed(path, size)];
          bytes := bytes + size;
        }
    }
  }

  datatype Facts = Facts(files: seq<Listed>, truncated: Truncated, skipped: nat)

  method AuditFacts(root: Scan) returns (answer: Result<Facts, Error>)
    ensures match WalkInto(root, "", [])
            case Err(e) => answer == Err(e)
            case Ok(fates) => answer == Ok(Facts(Files(fates), TruncatedOf(fates), SkippedIn(fates)))
  {
    var audit := new Audit();
    var error := audit.RelativeEntries(root, "");
    if error.Some? { return Err(error.value); }
    answer := Ok(Facts(audit.files, audit.truncated, audit.skipped));
  }

  // ----- the walk's conservation and bounds -----

  /** Every visited entry is counted once. */
  lemma {:induction false} VisitsAreCounted(fates: seq<Fate>)
    ensures |fates| == EnteredIn(fates) + SkippedIn(fates) + TruncatedOf(fates).entries + |Files(fates)|
  {
    if fates != [] { VisitsAreCounted(fates[..|fates| - 1]); }
  }

  /** Entries that were inspected: neither gone before they could be nor past the cut. */
  function Inspected(fates: seq<Fate>): nat {
    if fates == [] then 0
    else Inspected(fates[..|fates| - 1]) + if fates[|fates| - 1].Churned? || fates[|fates| - 1].Cut? then 0 else 1
  }

  ghost predicate BoundedFiles(files: seq<Listed>) {
    |files| <= MAX_FILES && SizeSum(files) <= MAX_TOTAL_BYTES && forall x <- files :: x.size <= MAX_FILE_BYTES
  }

  ghost predicate Bounded(fates: seq<Fate>) {
    Inspected(fates) <= MAX_VISITS && Inspected(fates) <= |fates| && BoundedFiles(Files(fates))
  }

  lemma JudgeKeepsBounds(e: Entry, path: string, fates: seq<Fate>)
    requires Bounded(fates) && !e.info.Unreadable?
    ensures Bounded(fates + [Judge(e, path, fates)])
  {
    var f := Judge(e, path, fates);
    CountsOneMore(fates, f);
    FilesOneMore(fates, f);
    if f.Kept? { FileKeepsBounds(Files(fates), Listed(path, f.size)); }
  }

  lemma FileKeepsBounds(files: seq<Listed>, x: Listed)
    requires BoundedFiles(files)
    requires |files| < MAX_FILES && x.size <= MAX_FILE_BYTES && SizeSum(files) + x.size <= MAX_TOTAL_BYTES
    ensures BoundedFiles(files + [x])
  {
    OneFileMore(files, x);
  }

  /** However large the tree: at most 4096 entries are inspected, and at most 1024 files of 8 MiB each and 64 MiB
    * together are listed. */
  lemma {:induction false} WalkIsBounded(entries: seq<Entry>, prefix: string, fates: seq<Fate>)
    requires Bounded(fates)
    ensures Walk(entries, prefix, fates).Ok? ==> Bounded(Walk(entries, prefix, fates).value)
    decreases entries
  {
    if entries == [] || entries[0].info.Unreadable? { return; }
    var path := PathOf(prefix, entries[0].name);
    var f := Judge(entries[0], path, fates);
    JudgeKeepsBounds(entries[0], path, fates);
    if f.Entered? {
      var scan := entries[0].info.scan;
      if scan.Entries? { WalkIsBounded(scan.list, path, fates + [f]); }
      var inner := WalkInto(scan, path, fates + [f]);
      if inner.Ok? { WalkIsBounded(entries[1..], prefix, inner.value); }
    } else if !f.Cut? {
      WalkIsBounded(entries[1..], prefix, fates + [f]);
    }
  }

  datatype Place = Place(path: string)

  /** The places of a tree, each directory before what it holds. */
  function Preorder(entries: seq<Entry>, prefix: string): seq<Place>
    decreases entries
  {
    if entries == [] then []
    else
      var path := PathOf(prefix, entries[0].name);
      [Place(path)] + (if entries[0].info.Dir? then PreorderOf(entries[0].info.scan, path) else [])
      + Preorder(entries[1..], prefix)
  }

  function PreorderOf(scan: Scan, prefix: string): seq<Place>
    decreases scan
  {
    if scan.Entries? then Preorder(scan.list, prefix) else []
  }

  function Places(fates: seq<Fate>): seq<Place> {
    if fates == [] then [] else Places(fates[..|fates| - 1]) + [Place(fates[|fates| - 1].path)]
  }

  predicate AnyCut(fates: seq<Fate>) {
    exists f <- fates :: f.Cut?
  }

  lemma {:induction false} WalkExtends(entries: seq<Entry>, prefix: string, fates: seq<Fate>)
    requires Walk(entries, prefix, fates).Ok?
    ensures fates <= Walk(entries, prefix, fates).value
    decreases entries
  {
    if entries == [] { return; }
    var path := PathOf(prefix, entries[0].name);
    var f := Judge(entries[0], path, fates);
    if f.Entered? {
      var scan := entries[0].info.scan;
      if scan.Entries? { WalkExtends(scan.list, path, fates + [f]); }
      WalkExtends(entries[1..], prefix, WalkInto(scan, path, fates + [f]).value);
    } else if !f.Cut? {
      WalkExtends(entries[1..], prefix, fates + [f]);
    }
  }

  lemma UncutBefore(entries: seq<Entry>, prefix: string, fates: seq<Fate>)
    requires Walk(entries, prefix, fates).Ok? && !AnyCut(Walk(entries, prefix, fates).value)
    ensures !AnyCut(fates)
  {
    WalkExtends(entries, prefix, fates);
    PrefixKeepsUncut(fates, Walk(entries, prefix, fates).value);
  }

  lemma PlacesOneMore(fates: seq<Fate>, f: Fate)
    ensures Places(fates + [f]) == Places(fates) + [Place(f.path)]
  {
    assert (fates + [f])[..|fates|] == fates;
  }

  lemma Regroup<T>(before: seq<T>, x: T, inner: seq<T>, rest: seq<T>, entered: seq<T>, left: seq<T>, end: seq<T>)
    requires entered == before + [x] && left == entered + inner && end == left + rest
    ensures end == before + ([x] + inner + rest)
  {
  }

  /** What a walk that is not cut adds to the log: the places of the tree. */
  ghost predicate Covers(more: seq<Fate>, fates: seq<Fate>, places: seq<Place>) {
    Places(more) == Places(fates) + places
  }

  lemma CoversBoth(fates: seq<Fate>, f: Fate, left: seq<Fate>, end: seq<Fate>, inner: seq<Place>, rest: seq<Place>)
    requires Covers(left, fates + [f], inner) && Covers(end, left, rest)
    ensures Covers(end, fates, [Place(f.path)] + inner + rest)
  {
    PlacesOneMore(fates, f);
    Regroup(Places(fates), Place(f.path), inner, rest, Places(fates + [f]), Places(left), Places(end));
  }

  /** A walk that is not cut visits every entry of the tree, in order and once. */
  lemma {:induction false} UncutWalkIsComplete(entries: seq<Entry>, prefix: string, fates: seq<Fate>)
    requires Walk(entries, prefix, fates).Ok? && !AnyCut(Walk(entries, prefix, fates).value)
    ensures Covers(Walk(entries, prefix, fates).value, fates, Preorder(entries, prefix))
    decreases entries, 1
  {
    if entries == [] { return; }
    var path, rest := PathOf(prefix, entries[0].name), entries[1..];
    var f := Judge(entries[0], path, fates);
    var more, end := fates + [f], Walk(entries, prefix, fates).value;
    assert f in more;
    if f.Entered? {
      var left := WalkInto(entries[0].info.scan, path, more).value;
      UncutBefore(rest, prefix, left);
      UncutWalkInto(entries[0].info.scan, path, more);
      UncutWalkIsComplete(rest, prefix, left);
      CoversBoth(fates, f, left, end, PreorderOf(entries[0].info.scan, path), Preorder(rest, prefix));
    } else if !f.Cut? {
      UncutWalkIsComplete(rest, prefix, more);
      UncutBefore(rest, prefix, more);
      CoversBoth(fates, f, more, end, [], Preorder(rest, prefix));
    }
  }

  lemma {:induction false} UncutWalkInto(scan: Scan, prefix: string, fates: seq<Fate>)
    requires WalkInto(scan, prefix, fates).Ok? && !AnyCut(WalkInto(scan, prefix, fates).value)
    ensures Covers(WalkInto(scan, prefix, fates).value, fates, PreorderOf(scan, prefix))
    decreases scan, 0
  {
    if scan.Entries? { UncutWalkIsComplete(scan.list, prefix, fates); }
  }

  lemma PrefixKeepsUncut(fates: seq<Fate>, more: seq<Fate>)
    requires fates <= more
    ensures AnyCut(fates) ==> AnyCut(more)
  {
    if AnyCut(fates) {
      var f :| f in fates && f.Cut?;
      assert f in more;
    }
  }

  /** A tree with at most 4096 entries is walked whole. */
  lemma {:induction false} SmallTreesAreUncut(entries: seq<Entry>, prefix: string, fates: seq<Fate>)
    requires !AnyCut(fates) && |fates| + |Preorder(entries, prefix)| <= MAX_VISITS
    requires Walk(entries, prefix, fates).Ok?
    ensures !AnyCut(Walk(entries, prefix, fates).value)
    ensures |Walk(entries, prefix, fates).value| == |fates| + |Preorder(entries, prefix)|
    decreases entries
  {
    if entries == [] { return; }
    var path := PathOf(prefix, entries[0].name);
    var f := Judge(entries[0], path, fates);
    assert !AnyCut(fates + [f]);
    if f.Entered? {
      var scan := entries[0].info.scan;
      if scan.Entries? { SmallTreesAreUncut(scan.list, path, fates + [f]); }
      SmallTreesAreUncut(entries[1..], prefix, WalkInto(scan, path, fates + [f]).value);
    } else {
      SmallTreesAreUncut(entries[1..], prefix, fates + [f]);
    }
  }

  // ----- when a walk fails -----

  /** Every entry can be looked at and every directory listed; one that is gone counts as empty. */
  predicate Readable(entries: seq<Entry>)
    decreases entries
  {
    forall e <- entries :: !e.info.Unreadable? && (e.info.Dir? ==> ReadableScan(e.info.scan))
  }

  predicate ReadableScan(scan: Scan)
    decreases scan
  {
    match scan
    case Missing => true
    case Broken => false
    case Entries(list) => Readable(list)
  }

  lemma ReadableFront(entries: seq<Entry>)
    requires entries != []
    ensures Readable(entries) <==>
            !entries[0].info.Unreadable? && (entries[0].info.Dir? ==> ReadableScan(entries[0].info.scan)) &&
            Readable(entries[1..])
  {
    assert entries == [entries[0]] + entries[1..];
  }

  /** The walk of a tree with at most 4096 entries fails exactly if an entry cannot be looked at or a directory cannot
    * be listed. */
  lemma {:induction false} SmallTreesFailExactly(entries: seq<Entry>, prefix: string, fates: seq<Fate>)
    requires !AnyCut(fates) && |fates| + |Preorder(entries, prefix)| <= MAX_VISITS
    ensures Walk(entries, prefix, fates).Ok? <==> Readable(entries)
    decreases entries, 1
  {
    if entries == [] { return; }
    ReadableFront(entries);
    if entries[0].info.Unreadable? { return; }
    var path := PathOf(prefix, entries[0].name);
    var f := Judge(entries[0], path, fates);
    assert !AnyCut(fates + [f]);
    if f.Entered? {
      var scan := entries[0].info.scan;
      SmallScansFailExactly(scan, path, fates + [f]);
      var inner := WalkInto(scan, path, fates + [f]);
      if inner.Ok? {
        if scan.Entries? { SmallTreesAreUncut(scan.list, path, fates + [f]); }
        SmallTreesFailExactly(entries[1..], prefix, inner.value);
      }
    } else {
      SmallTreesFailExactly(entries[1..], prefix, fates + [f]);
    }
  }

  lemma {:induction false} SmallScansFailExactly(scan: Scan, prefix: string, fates: seq<Fate>)
    requires !AnyCut(fates) && |fates| + |PreorderOf(scan, prefix)| <= MAX_VISITS
    ensures WalkInto(scan, prefix, fates).Ok? <==> ReadableScan(scan)
    decreases scan, 0
  {
    if scan.Entries? { SmallTreesFailExactly(scan.list, prefix, fates); }
  }

  // ----- what a whole walk finds -----

  /** What stands in a tree: directories, symbolic links, entries that are gone or of another kind, the sizes of the
    * regular files, in order, and how many of them exceed 8 MiB. */
  datatype Census = Census(dirs: nat, links: nat, odd: nat, files: nat, bytes: nat, oversize: nat)

  const NOTHING := Census(0, 0, 0, 0, 0, 0)

  function Plus(a: Census, b: Census): Census {
    Census(a.dirs + b.dirs, a.links + b.links, a.odd + b.odd, a.files + b.files, a.bytes + b.bytes,
           a.oversize + b.oversize)
  }

  function CensusOf(info: Info): Census {
    match info
    case Dir(_) => NOTHING.(dirs := 1)
    case Link => NOTHING.(links := 1)
    case File(size) => NOTHING.(files := 1, bytes := size, oversize := if size > 8 * 1024 * 1024 then 1 else 0)
    case _ => NOTHING.(odd := 1)
  }

  function TreeCensus(entries: seq<Entry>): Census
    decreases entries
  {
    if entries == [] then NOTHING
    else
      var info := entries[0].info;
      Plus(Plus(CensusOf(info), if info.Dir? then ScanCensus(info.scan) else NOTHING), TreeCensus(entries[1..]))
  }

  function ScanCensus(scan: Scan): Census
    decreases scan
  {
    if scan.Entries? then TreeCensus(scan.list) else NOTHING
  }

  /** The counters of the walk, as a census: listed and truncated files are not told apart. */
  ghost predicate Counts(fates: seq<Fate>, c: Census) {
    && EnteredIn(fates) == c.dirs && SkippedIn(fates) == c.links
    && TruncatedOf(fates).entries + |Files(fates)| == c.odd + c.files
    && TruncatedOf(fates).bytes + SizeSum(Files(fates)) == c.bytes
    && TruncatedOf(fates).oversize == c.oversize
  }

  lemma JudgeCounts(e: Entry, path: string, fates: seq<Fate>, c: Census)
    requires !e.info.Unreadable? && !Judge(e, path, fates).Cut? && Counts(fates, c)
    ensures Counts(fates + [Judge(e, path, fates)], Plus(c, CensusOf(e.info)))
  {
    var f := Judge(e, path, fates);
    assert (fates + [f])[..|fates|] == fates;
    CountsOneMore(fates, f);
    FilesOneMore(fates, f);
    if f.Kept? { OneFileMore(Files(fates), Listed(path, f.size)); }
  }

  lemma PlusAssociates(a: Census, b: Census, c: Census, d: Census)
    ensures Plus(Plus(Plus(a, b), c), d) == Plus(a, Plus(Plus(b, c), d))
    ensures Plus(a, NOTHING) == a
  {
  }

  /** How a walk that is not cut goes on after its first entry. */
  lemma UncutFront(entries: seq<Entry>, prefix: string, fates: seq<Fate>)
    requires entries != [] && Walk(entries, prefix, fates).Ok? && !AnyCut(Walk(entries, prefix, fates).value)
    ensures !entries[0].info.Unreadable?
    ensures var e, path := entries[0], PathOf(prefix, entries[0].name);
            var f := Judge(e, path, fates);
            && !f.Cut? && (f.Entered? <==> e.info.Dir?)
            && (if e.info.Dir?
                then var inner := WalkInto(e.info.scan, path, fates + [f]);
                  && inner.Ok? && !AnyCut(inner.value)
                  && Walk(entries[1..], prefix, inner.value) == Walk(entries, prefix, fates)
                else Walk(entries[1..], prefix, fates + [f]) == Walk(entries, prefix, fates))
  {
    var path := PathOf(prefix, entries[0].name);
    var f := Judge(entries[0], path, fates);
    assert f in fates + [f];
    if f.Entered? {
      UncutBefore(entries[1..], prefix, WalkInto(entries[0].info.scan, path, fates + [f]).value);
    }
  }

  lemma TreeCensusFront(entries: seq<Entry>, c: Census)
    requires entries != []
    ensures var info := entries[0].info;
            Plus(c, TreeCensus(entries)) ==
            if info.Dir? then Plus(Plus(Plus(c, CensusOf(info)), ScanCensus(info.scan)), TreeCensus(entries[1..]))
            else Plus(Plus(c, CensusOf(info)), TreeCensus(entries[1..]))
  {
    var info := entries[0].info;
    PlusAssociates(c, CensusOf(info), if info.Dir? then ScanCensus(info.scan) else NOTHING, TreeCensus(entries[1..]));
    PlusAssociates(Plus(c, CensusOf(info)), NOTHING, NOTHING, NOTHING);
  }

  /** A walk that is not cut counts every entry of the tree as what it is, and loses no byte of a regular file. */
  lemma {:induction false} UncutWalkCounts(entries: seq<Entry>, prefix: string, fates: seq<Fate>, c: Census)
    requires Counts(fates, c) && Walk(entries, prefix, fates).Ok? && !AnyCut(Walk(entries, prefix, fates).value)
    ensures Counts(Walk(entries, prefix, fates).value, Plus(c, TreeCensus(entries)))
    decreases entries, 1
  {
    if entries == [] { return; }
    var info, path := entries[0].info, PathOf(prefix, entries[0].name);
    UncutFront(entries, prefix, fates);
    TreeCensusFront(entries, c);
    JudgeCounts(entries[0], path, fates, c);
    var more, here := fates + [Judge(entries[0], path, fates)], Plus(c, CensusOf(info));
    if info.Dir? {
      UncutWalkIntoCounts(info.scan, path, more, here);
      UncutWalkCounts(entries[1..], prefix, WalkInto(info.scan, path, more).value, Plus(here, ScanCensus(info.scan)));
    } else {
      UncutWalkCounts(entries[1..], prefix, more, here);
    }
  }

  lemma {:induction false} UncutWalkIntoCounts(scan: Scan, prefix: string, fates: seq<Fate>, c: Census)
    requires Counts(fates, c) && WalkInto(scan, prefix, fates).Ok? && !AnyCut(WalkInto(scan, prefix, fates).value)
    ensures Counts(WalkInto(scan, prefix, fates).value, Plus(c, ScanCensus(scan)))
    decreases scan, 0
  {
    if scan.Entries? {
      UncutWalkCounts(scan.list, prefix, fates, c);
    } else {
      assert WalkInto(scan, prefix, fates) == Ok(fates);
      PlusAssociates(c, NOTHING, NOTHING, NOTHING);
    }
  }

  /** The regular files of a tree, in the order of the walk. */
  function FilesOf(entries: seq<Entry>, prefix: string): seq<Listed>
    decreases entries
  {
    if entries == [] then []
    else
      var path := PathOf(prefix, entries[0].name);
      FilesAt(entries[0].info, path) + FilesOf(entries[1..], prefix)
  }

  /** What one entry brings to the listing. */
  function FilesAt(info: Info, path: string): seq<Listed>
    decreases info
  {
    match info
    case File(size) => [Listed(path, size)]
    case Dir(scan) => FilesIn(scan, path)
    case _ => []
  }

  function FilesIn(scan: Scan, prefix: string): seq<Listed>
    decreases scan
  {
    if scan.Entries? then FilesOf(scan.list, prefix) else []
  }

  lemma {:induction false} SizesAdd(a: seq<Listed>, b: seq<Listed>)
    ensures SizeSum(a + b) == SizeSum(a) + SizeSum(b)
  {
    if b == [] {
      assert a + b == a;
    } else {
      var init := b[..|b| - 1];
      assert a + b == a + init + [b[|b| - 1]];
      OneFileMore(a + init, b[|b| - 1]);
      SizesAdd(a, init);
    }
  }

  /** The files fit the bounds behind those listed before. */
  ghost predicate Fit(before: seq<Listed>, files: seq<Listed>) {
    BoundedFiles(before + files)
  }

  lemma FitBoth(before: seq<Listed>, a: seq<Listed>, b: seq<Listed>)
    requires Fit(before, a + b)
    ensures Fit(before, a) && Fit(before + a, b)
  {
    assert before + (a + b) == before + a + b;
    SizesAdd(before + a, b);
  }

  lemma FittingFileIsKept(e: Entry, path: string, fates: seq<Fate>)
    requires e.info.File? && !Judge(e, path, fates).Cut? && Fit(Files(fates), [Listed(path, e.info.size)])
    ensures Files(fates + [Judge(e, path, fates)]) == Files(fates) + [Listed(path, e.info.size)]
  {
    OneFileMore(Files(fates), Listed(path, e.info.size));
    var all := Files(fates) + [Listed(path, e.info.size)];
    assert all[|all| - 1] in all;
    FilesOneMore(fates, Judge(e, path, fates));
  }

  lemma FilesOfFront(entries: seq<Entry>, prefix: string)
    requires entries != []
    ensures FilesOf(entries, prefix) ==
            FilesAt(entries[0].info, PathOf(prefix, entries[0].name)) + FilesOf(entries[1..], prefix)
  {
  }

  ghost predicate Lists(end: seq<Fate>, fates: seq<Fate>, files: seq<Listed>) {
    Files(end) == Files(fates) + files
  }

  lemma ListsBoth(fates: seq<Fate>, left: seq<Fate>, end: seq<Fate>, here: seq<Listed>, later: seq<Listed>)
    requires Lists(left, fates, here) && Lists(end, left, later)
    ensures Lists(end, fates, here + later)
  {
    assert Files(fates) + here + later == Files(fates) + (here + later);
  }

  lemma FitsAfter(fates: seq<Fate>, left: seq<Fate>, here: seq<Listed>, later: seq<Listed>)
    requires Fit(Files(fates), here + later) && Lists(left, fates, here)
    ensures Fit(Files(left), later)
  {
    FitBoth(Files(fates), here, later);
  }

  lemma OneEntryIsListed(e: Entry, path: string, fates: seq<Fate>, later: seq<Listed>)
    requires !e.info.Unreadable? && !Judge(e, path, fates).Cut? && Fit(Files(fates), FilesAt(e.info, path) + later)
    ensures var more := fates + [Judge(e, path, fates)];
            if e.info.Dir? then Files(more) == Files(fates) && Fit(Files(more), FilesAt(e.info, path))
            else Lists(more, fates, FilesAt(e.info, path))
  {
    FitBoth(Files(fates), FilesAt(e.info, path), later);
    if e.info.File? { FittingFileIsKept(e, path, fates); } else { FilesOneMore(fates, Judge(e, path, fates)); }
  }

  /** A home within the bounds is listed whole: every regular file of the tree, once and in order. */
  lemma {:induction false} HomesWithinBoundsAreListed(entries: seq<Entry>, prefix: string, fates: seq<Fate>)
    requires Walk(entries, prefix, fates).Ok? && !AnyCut(Walk(entries, prefix, fates).value)
    requires Fit(Files(fates), FilesOf(entries, prefix))
    ensures Lists(Walk(entries, prefix, fates).value, fates, FilesOf(entries, prefix))
    decreases entries, 1
  {
    if entries == [] { return; }
    var info, path, rest := entries[0].info, PathOf(prefix, entries[0].name), entries[1..];
    var more, here, later := fates + [Judge(entries[0], path, fates)], FilesAt(info, path), FilesOf(rest, prefix);
    UncutFront(entries, prefix, fates);
    FilesOfFront(entries, prefix);
    OneEntryIsListed(entries[0], path, fates, later);
    var left := if info.Dir? then WalkInto(info.scan, path, more).value else more;
    if info.Dir? { ListedInto(info.scan, path, more); }
    assert Lists(left, fates, here);
    FitsAfter(fates, left, here, later);
    HomesWithinBoundsAreListed(rest, prefix, left);
    ListsBoth(fates, left, Walk(rest, prefix, left).value, here, later);
  }

  lemma {:induction false} ListedInto(scan: Scan, prefix: string, fates: seq<Fate>)
    requires WalkInto(scan, prefix, fates).Ok? && !AnyCut(WalkInto(scan, prefix, fates).value)
    requires Fit(Files(fates), FilesIn(scan, prefix))
    ensures Lists(WalkInto(scan, prefix, fates).value, fates, FilesIn(scan, prefix))
    decreases scan, 0
  {
    if scan.Entries? { HomesWithinBoundsAreListed(scan.list, prefix, fates); }
  }
}
