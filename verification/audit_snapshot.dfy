/** The second pass of the home audit: which listed files are read, what is excluded by name, and what the manifest's
  * numbers add up to, alone and together with the walk. */
module AuditSnapshot {
  import opened Wrappers
  import opened HomeAudit

  /** A listing entry as a channel supplies it; the path or the size may be missing. */
  datatype Item = Item(path: Option<string>, size: Option<int>)

  /** What one read gives: content, a refusal with a code, or a failure without one. */
  datatype Reading = Content(bytes: seq<bv8>, digest: string) | Refused | Crashed

  datatype Rules = Rules(protectedPaths: set<string>, ephemeral: seq<string>, forbidden: seq<bv8>)

  datatype Audited = Audited(path: string, digest: string, size: nat)
  datatype Manifest = Manifest(files: seq<Audited>, bytes: int, truncated: Truncated, skipped: nat)

  // ----- paths -----

  datatype Part = Part(text: string)

  /** The parts of a path between its slashes. */
  function Parts(s: string): (r: seq<Part>)
    ensures |r| > 0
  {
    if s == "" then [Part("")]
    else
      var init, last := Parts(s[..|s| - 1]), s[|s| - 1];
      if last == '/' then init + [Part("")]
      else init[..|init| - 1] + [Part(init[|init| - 1].text + [last])]
  }

  predicate Plain(part: Part) {
    part.text != "" && part.text != "." && part.text != ".."
  }

  predicate DoubleSlashAt(s: string, i: nat) {
    i + 1 < |s| && s[i] == '/' && s[i + 1] == '/'
  }

  predicate HasDoubleSlash(s: string) {
    exists i | 0 <= i < |s| :: DoubleSlashAt(s, i)
  }

  predicate AllPlain(parts: seq<Part>) {
    forall part <- parts :: Plain(part)
  }

  predicate Safe(path: string) {
    && path != "" && path[0] != '/' && '\\' !in path && '\0' !in path
    && !HasDoubleSlash(path) && AllPlain(Parts(path))
  }

  predicate Under(path: string, prefixes: seq<string>) {
    exists p <- prefixes :: path == p || p + "/" <= path
  }

  predicate OccursAt(content: seq<bv8>, part: seq<bv8>, i: nat) {
    i + |part| <= |content| && content[i..i + |part|] == part
  }

  predicate Occurs(content: seq<bv8>, part: seq<bv8>) {
    exists i | 0 <= i <= |content| :: OccursAt(content, part, i)
  }

  // ----- the pass as a log -----

  datatype Verdict =
    | Unnamed
    | Protected
    | Ephemeral
    | Malformed(claimed: Option<int>)
    | Unread(size: nat)
    | Read(file: Audited, listed: nat)

  /** What is decided about an item before anything is read. */
  datatype Screening = Unsafe | Settled(verdict: Verdict) | ToRead(path: string, size: nat)

  function Screened(item: Item, rules: Rules): Screening {
    if item.path.None? || item.path.value == "" then Settled(Unnamed)
    else
      var path := item.path.value;
      if !Safe(path) then Unsafe
      else if path in rules.protectedPaths then Settled(Protected)
      else if Under(path, rules.ephemeral) then Settled(Ephemeral)
      else if item.size.None? || item.size.value < 0 || item.size.value > MAX_FILE_BYTES
      then Settled(Malformed(item.size))
      else ToRead(path, item.size.value)
  }

  /** A file is read exactly when its path is safe, neither protected nor ephemeral, and its size is in bounds; the only
    * thing that fails before reading is an unsafe path. */
  lemma ReadExactly(item: Item, rules: Rules)
    ensures Screened(item, rules).Unsafe? <==> item.path.Some? && item.path.value != "" && !Safe(item.path.value)
    ensures forall path, size: nat :: Screened(item, rules) == ToRead(path, size) <==>
              && item == Item(Some(path), Some(size)) && size <= MAX_FILE_BYTES
              && Safe(path) && path !in rules.protectedPaths && !Under(path, rules.ephemeral)
  {
  }

  function Examine(item: Item, reading: Reading, rules: Rules): Result<Verdict, Error> {
    match Screened(item, rules)
    case Unsafe => Err(PathInvalid)
    case Settled(verdict) => Ok(verdict)
    case ToRead(path, size) =>
      match reading
      case Crashed => Err(Crash)
      case Refused => Ok(Unread(size))
      case Content(bytes, digest) =>
        if rules.forbidden != [] && Occurs(bytes, rules.forbidden) then Err(ContainsSecret(path))
        else Ok(Read(Audited(path, digest, |bytes|), size))
  }

  /** The verdicts from item `i` on, the first failure ending the pass. `read(k)` is what reading item `k` gives. */
  function Pass(listing: seq<Item>, read: nat -> Reading, rules: Rules, i: nat, log: seq<Verdict>)
    : Result<seq<Verdict>, Error>
    requires i <= |listing|
    decreases |listing| - i
  {
    if i == |listing| then Ok(log)
    else
      match Examine(listing[i], read(i), rules)
      case Err(e) => Err(e)
      case Ok(v) => Pass(listing, read, rules, i + 1, log + [v])
  }

  function FilesRead(log: seq<Verdict>): seq<Audited> {
    if log == [] then []
    else if log[|log| - 1].Read? then FilesRead(log[..|log| - 1]) + [log[|log| - 1].file]
    else FilesRead(log[..|log| - 1])
  }

  /** Bytes by the sizes of the listing, not by what was read. */
  function BytesRead(log: seq<Verdict>): nat {
    if log == [] then 0
    else BytesRead(log[..|log| - 1]) + if log[|log| - 1].Read? then log[|log| - 1].listed else 0
  }

  function Bump(t: Truncated, v: Verdict): Truncated {
    match v
    case Malformed(claimed) =>
      Truncated(t.entries + 1, t.bytes + (if claimed.Some? && claimed.value > 0 then claimed.value else 0),
                t.oversize + if claimed.Some? && claimed.value > MAX_FILE_BYTES then 1 else 0)
    case Unread(size) => Truncated(t.entries + 1, t.bytes + size, t.oversize)
    case _ => t
  }

  function Bumped(t: Truncated, log: seq<Verdict>): Truncated {
    if log == [] then t else Bump(Bumped(t, log[..|log| - 1]), log[|log| - 1])
  }

  function Excluded(log: seq<Verdict>): nat {
    if log == [] then 0
    else Excluded(log[..|log| - 1]) + if log[|log| - 1].Protected? || log[|log| - 1].Ephemeral? then 1 else 0
  }

  function UnnamedIn(log: seq<Verdict>): nat {
    if log == [] then 0 else UnnamedIn(log[..|log| - 1]) + if log[|log| - 1].Unnamed? then 1 else 0
  }

  function Start(truncated: Option<Truncated>): Truncated {
    if truncated.Some? then truncated.value else Truncated(0, 0, 0)
  }

  function Summary(log: seq<Verdict>, truncated: Option<Truncated>, skipped: nat): Manifest {
    Manifest(FilesRead(log), BytesRead(log), Bumped(Start(truncated), log), skipped)
  }

  lemma OneVerdictMore(log: seq<Verdict>, v: Verdict, t: Truncated)
    ensures FilesRead(log + [v]) == if v.Read? then FilesRead(log) + [v.file] else FilesRead(log)
    ensures BytesRead(log + [v]) == BytesRead(log) + if v.Read? then v.listed else 0
    ensures Bumped(t, log + [v]) == Bump(Bumped(t, log), v)
  {
    assert (log + [v])[..|log|] == log;
  }

  lemma PassStep(listing: seq<Item>, read: nat -> Reading, rules: Rules, i: nat, log: seq<Verdict>)
    requires i < |listing|
    ensures Pass(listing, read, rules, i, log) == match Examine(listing[i], read(i), rules)
                                                  case Err(e) => Err(e)
                                                  case Ok(v) => Pass(listing, read, rules, i + 1, log + [v])
  {
  }

  method Screen(item: Item, rules: Rules) returns (screening: Screening)
    ensures screening == Screened(item, rules)
  {
    if item.path.None? || item.path.value == "" { return Settled(Unnamed); }
    var path := item.path.value;
    if !Safe(path) { return Unsafe; }
    if path in rules.protectedPaths { return Settled(Protected); }
    if Under(path, rules.ephemeral) { return Settled(Ephemeral); }
    if item.size.None? || item.size.value < 0 || item.size.value > MAX_FILE_BYTES {
      return Settled(Malformed(item.size));
    }
    screening := ToRead(path, item.size.value);
  }

  method Snapshot(listing: seq<Item>, read: nat -> Reading, rules: Rules, truncated0: Option<Truncated>, skipped: nat)
    returns (answer: Result<Manifest, Error>)
    ensures match Pass(listing, read, rules, 0, [])
            case Err(e) => answer == Err(e)
            case Ok(log) => answer == Ok(Summary(log, truncated0, skipped))
  {
    var files: seq<Audited>, total, truncated := [], 0, Start(truncated0);
    ghost var log: seq<Verdict> := [];
    for i := 0 to |listing|
      invariant Pass(listing, read, rules, 0, []) == Pass(listing, read, rules, i, log)
      invariant files == FilesRead(log) && total == BytesRead(log) && truncated == Bumped(Start(truncated0), log)
    {
      PassStep(listing, read, rules, i, log);
      ghost var verdict := Examine(listing[i], read(i), rules);
      if verdict.Ok? {
        OneVerdictMore(log, verdict.value, Start(truncated0));
        log := log + [verdict.value];
      }
      var item := Screen(listing[i], rules);
      match item
      case Unsafe =>
        return Err(PathInvalid);
      case Settled(why) =>
        truncated := Bump(truncated, why);
      case ToRead(path, size) =>
        total := total + size;
        var reading := read(i);
        match reading
        case Crashed =>
          return Err(Crash);
        case Refused =>
          truncated := truncated.(entries := truncated.entries + 1, bytes := truncated.bytes + size);
          total := total - size;
        case Content(bytes, digest) =>
          if rules.forbidden != [] && Occurs(bytes, rules.forbidden) { return Err(ContainsSecret(path)); }
          files := files + [Audited(path, digest, |bytes|)];
    }
    answer := Ok(Manifest(files, total, truncated, skipped));
  }

  // ----- the verdicts, read off the items -----

  /** The path is one of the prefixes, or goes on after it with a slash. */
  ghost predicate StandsUnder(path: string, prefixes: seq<string>) {
    exists p <- prefixes :: path == p || (|path| > |p| && path[..|p|] == p && path[|p|] == '/')
  }

  lemma UnderExactly(path: string, prefixes: seq<string>)
    ensures Under(path, prefixes) <==> StandsUnder(path, prefixes)
  {
    forall p <- prefixes ensures p + "/" <= path <==> |path| > |p| && path[..|p|] == p && path[|p|] == '/' {
      if |path| > |p| { assert path[..|p| + 1] == path[..|p|] + [path[|p|]]; }
      if p + "/" <= path { assert (p + "/")[..|p|] == p && (p + "/")[|p|] == '/'; }
    }
  }

  /** A file that has to be audited. */
  ghost predicate Auditable(item: Item, rules: Rules) {
    && item.path.Some? && item.path.value != "" && Safe(item.path.value)
    && item.path.value !in rules.protectedPaths && !StandsUnder(item.path.value, rules.ephemeral)
  }

  ghost predicate InBounds(size: Option<int>) {
    size.Some? && 0 <= size.value <= 8 * 1024 * 1024
  }

  ghost predicate HoldsSecret(bytes: seq<bv8>, forbidden: seq<bv8>) {
    forbidden != [] && exists i :: 0 <= i <= |bytes| - |forbidden| && bytes[i..][..|forbidden|] == forbidden
  }

  ghost predicate Judged(item: Item, reading: Reading, rules: Rules, v: Verdict) {
    match v
    case Unnamed => item.path.None? || item.path.value == ""
    case Protected => item.path.Some? && Safe(item.path.value) && item.path.value in rules.protectedPaths
    case Ephemeral =>
      && item.path.Some? && Safe(item.path.value)
      && item.path.value !in rules.protectedPaths && StandsUnder(item.path.value, rules.ephemeral)
    case Malformed(claimed) => Auditable(item, rules) && claimed == item.size && !InBounds(item.size)
    case Unread(size) => Auditable(item, rules) && InBounds(item.size) && size == item.size.value && reading == Refused
    case Read(file, listed) =>
      && Auditable(item, rules) && InBounds(item.size) && listed == item.size.value
      && reading.Content? && !HoldsSecret(reading.bytes, rules.forbidden)
      && file == Audited(item.path.value, reading.digest, |reading.bytes|)
  }

  /** Why an item ends the pass: its path is unsafe, its content holds the secret, or reading it fails with no
    * code. */
  ghost predicate EndsThePass(item: Item, reading: Reading, rules: Rules, error: Error) {
    match error
    case PathInvalid => item.path.Some? && item.path.value != "" && !Safe(item.path.value)
    case ContainsSecret(path) =>
      && Auditable(item, rules) && InBounds(item.size) && path == item.path.value
      && reading.Content? && HoldsSecret(reading.bytes, rules.forbidden)
    case Crash => Auditable(item, rules) && InBounds(item.size) && reading == Crashed
    case _ => false
  }

  lemma OccursExactly(bytes: seq<bv8>, part: seq<bv8>)
    ensures part != [] ==> (Occurs(bytes, part) <==> HoldsSecret(bytes, part))
  {
    forall i: nat | i + |part| <= |bytes| ensures bytes[i..][..|part|] == bytes[i..i + |part|] {}
    if part != [] && HoldsSecret(bytes, part) {
      var i :| 0 <= i <= |bytes| - |part| && bytes[i..][..|part|] == part;
      assert OccursAt(bytes, part, i);
    }
    if part != [] && Occurs(bytes, part) {
      var i :| 0 <= i <= |bytes| && OccursAt(bytes, part, i);
      assert bytes[i..][..|part|] == part;
    }
  }

  lemma ExaminedExactly(item: Item, reading: Reading, rules: Rules)
    ensures forall v :: Examine(item, reading, rules) == Ok(v) <==> Judged(item, reading, rules, v)
    ensures forall e :: Examine(item, reading, rules) == Err(e) <==> EndsThePass(item, reading, rules, e)
  {
    if item.path.Some? { UnderExactly(item.path.value, rules.ephemeral); }
    if reading.Content? { OccursExactly(reading.bytes, rules.forbidden); }
  }

  // ----- what the numbers mean -----

  /** On a normal return every item has its own verdict, the one its fields and what was read call for. */
  lemma {:induction false} EveryItemIsJudged(listing: seq<Item>, read: nat -> Reading, rules: Rules, i: nat,
                                             log: seq<Verdict>)
    requires i <= |listing| && |log| == i && Pass(listing, read, rules, i, log).Ok?
    requires forall k | 0 <= k < i :: Judged(listing[k], read(k), rules, log[k])
    ensures var all := Pass(listing, read, rules, i, log).value;
            |all| == |listing| && forall k | 0 <= k < |all| :: Judged(listing[k], read(k), rules, all[k])
    decreases |listing| - i
  {
    if i < |listing| {
      ExaminedExactly(listing[i], read(i), rules);
      EveryItemIsJudged(listing, read, rules, i + 1, log + [Examine(listing[i], read(i), rules).value]);
    }
  }

  ghost predicate GoesThrough(item: Item, reading: Reading, rules: Rules) {
    forall error :: !EndsThePass(item, reading, rules, error)
  }

  /** The pass returns normally exactly when no item ends it, and otherwise ends with the first that does. */
  lemma {:induction false} PassesExactly(listing: seq<Item>, read: nat -> Reading, rules: Rules, i: nat,
                                         log: seq<Verdict>)
    requires i <= |listing|
    ensures Pass(listing, read, rules, i, log).Ok? <==>
            forall k | i <= k < |listing| :: GoesThrough(listing[k], read(k), rules)
    ensures Pass(listing, read, rules, i, log).Err? ==>
              exists k :: && i <= k < |listing| && (forall j | i <= j < k :: GoesThrough(listing[j], read(j), rules))
                          && EndsThePass(listing[k], read(k), rules, Pass(listing, read, rules, i, log).error)
    decreases |listing| - i
  {
    if i == |listing| { return; }
    ExaminedExactly(listing[i], read(i), rules);
    var verdict := Examine(listing[i], read(i), rules);
    if verdict.Ok? {
      assert GoesThrough(listing[i], read(i), rules);
      PassesExactly(listing, read, rules, i + 1, log + [verdict.value]);
    } else {
      assert EndsThePass(listing[i], read(i), rules, verdict.error);
    }
  }

  /** Items, by what became of them. */
  lemma {:induction false} ItemsAreCounted(log: seq<Verdict>, t: Truncated)
    ensures |log| == UnnamedIn(log) + Excluded(log) + (Bumped(t, log).entries - t.entries) + |FilesRead(log)|
    ensures Bumped(t, log).entries >= t.entries
  {
    if log != [] { ItemsAreCounted(log[..|log| - 1], t); }
  }

  /** The bytes an item stands for in the audit's numbers. */
  ghost function BytesOf(item: Item, rules: Rules): nat {
    if Auditable(item, rules) && item.size.Some? && item.size.value > 0 then item.size.value else 0
  }

  ghost function BytesOfAll(listing: seq<Item>, rules: Rules): nat {
    if listing == [] then 0 else BytesOfAll(listing[..|listing| - 1], rules) + BytesOf(listing[|listing| - 1], rules)
  }

  ghost function OversizeOf(item: Item, rules: Rules): nat {
    if Auditable(item, rules) && item.size.Some? && item.size.value > 8 * 1024 * 1024 then 1 else 0
  }

  ghost function OversizeOfAll(listing: seq<Item>, rules: Rules): nat {
    if listing == [] then 0
    else OversizeOfAll(listing[..|listing| - 1], rules) + OversizeOf(listing[|listing| - 1], rules)
  }

  /** No byte is lost: what the items that have to be audited claim is in the manifest's total or counted as truncated,
    * and the oversized ones among them are counted. */
  lemma {:induction false} BytesAreConserved(listing: seq<Item>, read: nat -> Reading, rules: Rules, log: seq<Verdict>,
                                             t: Truncated)
    requires |log| == |listing| && forall k | 0 <= k < |log| :: Judged(listing[k], read(k), rules, log[k])
    ensures BytesRead(log) + Bumped(t, log).bytes == t.bytes + BytesOfAll(listing, rules)
    ensures Bumped(t, log).oversize == t.oversize + OversizeOfAll(listing, rules)
  {
    if log != [] {
      BytesAreConserved(listing[..|log| - 1], read, rules, log[..|log| - 1], t);
      OneItemsBytes(listing[|log| - 1], read(|log| - 1), rules, log[|log| - 1], Bumped(t, log[..|log| - 1]));
    }
  }

  lemma OneItemsBytes(item: Item, reading: Reading, rules: Rules, v: Verdict, t: Truncated)
    requires Judged(item, reading, rules, v)
    ensures (if v.Read? then v.listed else 0) + Bump(t, v).bytes == t.bytes + BytesOf(item, rules)
    ensures Bump(t, v).oversize == t.oversize + OversizeOf(item, rules)
  {
  }

  /** What the walk lists, as the second pass receives it. */
  function AsItems(files: seq<Listed>): seq<Item> {
    seq(|files|, i requires 0 <= i < |files| => Item(Some(files[i].path), Some(files[i].size)))
  }

  lemma ListedVerdict(f: Listed, reading: Reading, rules: Rules, v: Verdict)
    requires f.size <= MAX_FILE_BYTES && Judged(Item(Some(f.path), Some(f.size)), reading, rules, v)
    ensures v.Unnamed? <==> f.path == ""
    ensures !v.Malformed? && (v.Unread? ==> v.size == f.size)
    ensures v.Read? ==> v.listed == f.size && v.file.path == f.path
  {
  }

  /** The verdicts of a walk's files: sizes are the listed ones. */
  ghost predicate Fits(files: seq<Listed>, log: seq<Verdict>) {
    && |files| == |log|
    && forall k | 0 <= k < |log| :: !log[k].Malformed? && (log[k].Read? ==> log[k].listed == files[k].size)
  }

  lemma {:induction false} ReadBytesAreListed(files: seq<Listed>, log: seq<Verdict>)
    requires Fits(files, log)
    ensures BytesRead(log) <= SizeSum(files) && |FilesRead(log)| <= |files|
  {
    if log != [] { ReadBytesAreListed(files[..|log| - 1], log[..|log| - 1]); }
  }

  lemma {:induction false} NoneUnnamed(log: seq<Verdict>)
    requires forall v <- log :: !v.Unnamed?
    ensures UnnamedIn(log) == 0
  {
    if log != [] {
      assert log == log[..|log| - 1] + [log[|log| - 1]];
      NoneUnnamed(log[..|log| - 1]);
    }
  }

  // ----- names as an operating system allows them -----

  predicate OsName(name: string) {
    name != "" && '/' !in name && '\0' !in name && name != "." && name != ".."
  }

  predicate OsTree(entries: seq<Entry>)
    decreases entries
  {
    forall e <- entries :: OsName(e.name) && (e.info.Dir? ==> OsScan(e.info.scan))
  }

  predicate OsScan(scan: Scan)
    decreases scan
  {
    scan.Entries? ==> OsTree(scan.list)
  }

  /** Safe but for a backslash. */
  predicate Relative(path: string) {
    && path != "" && path[0] != '/' && path[|path| - 1] != '/' && '\0' !in path
    && !HasDoubleSlash(path) && AllPlain(Parts(path))
  }

  lemma {:induction false} PartsOfName(name: string)
    requires '/' !in name
    ensures Parts(name) == [Part(name)]
  {
    if name != "" {
      assert name == name[..|name| - 1] + [name[|name| - 1]];
      PartsOfName(name[..|name| - 1]);
    }
  }

  lemma {:induction false} PartsOfJoin(prefix: string, name: string)
    requires '/' !in name
    ensures Parts(prefix + "/" + name) == Parts(prefix) + [Part(name)]
  {
    var whole := prefix + "/" + name;
    if name == "" {
      assert whole[..|whole| - 1] == prefix && whole[|whole| - 1] == '/';
    } else {
      var init, last := name[..|name| - 1], name[|name| - 1];
      assert name == init + [last];
      PartsOfJoin(prefix, init);
      assert whole[..|whole| - 1] == prefix + "/" + init && whole[|whole| - 1] == last;
      assert last in name;
      var parts := Parts(prefix + "/" + init);
      assert parts[..|parts| - 1] == Parts(prefix);
    }
  }

  /** The parts of a walked path are those of its directory and the entry's name. */
  lemma PathIsItsNames(prefix: string, name: string)
    requires '/' !in name
    ensures Parts(PathOf(prefix, name)) == (if prefix == "" then [] else Parts(prefix)) + [Part(name)]
  {
    if prefix == "" { PartsOfName(name); } else { PartsOfJoin(prefix, name); }
  }

  lemma JoinIsRelative(prefix: string, name: string)
    requires OsName(name) && (prefix == "" || Relative(prefix))
    ensures Relative(PathOf(prefix, name))
  {
    PartsOfName(name);
    PartsOfJoin(prefix, name);
    var path := PathOf(prefix, name);
    forall k | 0 <= k < |name| ensures name[k] != '/' && name[k] != '\0' { assert name[k] in name; }
    if prefix != "" {
      forall i | 0 <= i < |path| ensures !DoubleSlashAt(path, i) {
        assert i + 1 < |prefix| ==> !DoubleSlashAt(prefix, i);
      }
    }
  }

  ghost predicate AllRelative(files: seq<Listed>) {
    forall x <- files :: Relative(x.path)
  }

  lemma RelativeOneMore(fates: seq<Fate>, f: Fate)
    requires AllRelative(Files(fates)) && Relative(f.path)
    ensures AllRelative(Files(fates + [f]))
  {
    FilesOneMore(fates, f);
  }

  /** A directory's path, or the root. */
  predicate Base(prefix: string) {
    prefix == "" || Relative(prefix)
  }

  ghost predicate RelativeLog(fates: seq<Fate>) {
    AllRelative(Files(fates))
  }

  lemma JudgedIsRelative(e: Entry, prefix: string, fates: seq<Fate>)
    requires OsName(e.name) && !e.info.Unreadable? && Base(prefix) && RelativeLog(fates)
    ensures Base(PathOf(prefix, e.name)) && RelativeLog(fates + [Judge(e, PathOf(prefix, e.name), fates)])
  {
    JoinIsRelative(prefix, e.name);
    RelativeOneMore(fates, Judge(e, PathOf(prefix, e.name), fates));
  }

  lemma OsTreeFront(entries: seq<Entry>)
    requires OsTree(entries) && entries != []
    ensures OsName(entries[0].name) && OsTree(entries[1..]) && (entries[0].info.Dir? ==> OsScan(entries[0].info.scan))
  {
    assert forall e <- entries[1..] :: e in entries;
  }

  lemma {:induction false} WalkedPathsAreRelative(entries: seq<Entry>, prefix: string, fates: seq<Fate>)
    requires OsTree(entries) && Base(prefix) && RelativeLog(fates)
    ensures Walk(entries, prefix, fates).Ok? ==> RelativeLog(Walk(entries, prefix, fates).value)
    decreases entries, 1
  {
    if entries == [] || entries[0].info.Unreadable? { return; }
    var e, rest := entries[0], entries[1..];
    var path := PathOf(prefix, e.name);
    var f := Judge(e, path, fates);
    OsTreeFront(entries);
    JudgedIsRelative(e, prefix, fates);
    if f.Entered? {
      WalkedIntoAreRelative(e.info.scan, path, fates + [f]);
      var inner := WalkInto(e.info.scan, path, fates + [f]);
      if inner.Ok? { WalkedPathsAreRelative(rest, prefix, inner.value); }
    } else if !f.Cut? {
      WalkedPathsAreRelative(rest, prefix, fates + [f]);
    }
  }

  lemma {:induction false} WalkedIntoAreRelative(scan: Scan, prefix: string, fates: seq<Fate>)
    requires OsScan(scan) && Base(prefix) && RelativeLog(fates)
    ensures WalkInto(scan, prefix, fates).Ok? ==> RelativeLog(WalkInto(scan, prefix, fates).value)
    decreases scan, 0
  {
    if scan.Entries? { WalkedPathsAreRelative(scan.list, prefix, fates); }
  }

  /** A path the walk lists is refused by the second pass exactly when a name on it has a backslash. */
  lemma WalkedPathIsSafeExactly(root: Scan, x: Listed)
    requires OsScan(root) && WalkInto(root, "", []).Ok? && x in Files(WalkInto(root, "", []).value)
    ensures Safe(x.path) <==> '\\' !in x.path
  {
    WalkedIntoAreRelative(root, "", []);
  }

  // ----- both passes -----

  /** The whole audit of a home. */
  function Home(root: Scan, read: nat -> Reading, rules: Rules): Result<(seq<Fate>, seq<Verdict>), Error> {
    match WalkInto(root, "", [])
    case Err(e) => Err(e)
    case Ok(fates) =>
      match Pass(AsItems(Files(fates)), read, rules, 0, [])
      case Err(e) => Err(e)
      case Ok(log) => Ok((fates, log))
  }

  /** A home with one empty file called `a\b`: the walk lists it, and the audit fails whatever the rules. */
  lemma BackslashEndsTheAudit(read: nat -> Reading, rules: Rules)
    ensures var root := Entries([Entry("a\\b", File(0))]);
            && OsScan(root) && WalkInto(root, "", []) == Ok([Kept("a\\b", 0)])
            && Home(root, read, rules) == Err(PathInvalid)
  {
    var entries := [Entry("a\\b", File(0))];
    var root := Entries(entries);
    assert entries[1..] == [];
    assert [] + [Kept("a\\b", 0)] == [Kept("a\\b", 0)];
    assert [Kept("a\\b", 0)][..0] == [];
    assert "a\\b"[1] == '\\';
    assert Files([Kept("a\\b", 0)]) == [Listed("a\\b", 0)];
    var items := AsItems([Listed("a\\b", 0)]);
    assert items[0] == Item(Some("a\\b"), Some(0));
    assert Examine(items[0], read(0), rules) == Err(PathInvalid);
    assert Pass(items, read, rules, 0, []) == Err(PathInvalid);
  }

  /** On a normal return every visited entry was entered, skipped, truncated, excluded by name or audited, and the
    * manifest's numbers say how many; what was audited stays within the bounds, whatever the tree. */
  lemma AuditIsConserved(root: Scan, read: nat -> Reading, rules: Rules)
    requires OsScan(root) && Home(root, read, rules).Ok?
    ensures var (fates, log) := Home(root, read, rules).value;
            var m := Summary(log, Some(TruncatedOf(fates)), SkippedIn(fates));
            && |fates| == EnteredIn(fates) + m.skipped + m.truncated.entries + Excluded(log) + |m.files|
            && Fits(Files(fates), log) && m.bytes <= SizeSum(Files(fates)) <= 64 * 1024 * 1024
            && |m.files| <= |Files(fates)| <= 1024
            && Inspected(fates) <= 4096
  {
    var (fates, log) := Home(root, read, rules).value;
    VisitsAreCounted(fates);
    ItemsAreCounted(log, TruncatedOf(fates));
    if root.Entries? { WalkIsBounded(root.list, "", []); }
    WalkedIntoAreRelative(root, "", []);
    var files := Files(fates);
    EveryItemIsJudged(AsItems(files), read, rules, 0, []);
    forall k | 0 <= k < |log|
      ensures !log[k].Unnamed? && !log[k].Malformed? && (log[k].Read? ==> log[k].listed == files[k].size)
    {
      assert AsItems(files)[k] == Item(Some(files[k].path), Some(files[k].size)) && files[k] in files;
      ListedVerdict(files[k], read(k), rules, log[k]);
    }
    ReadBytesAreListed(files, log);
    NoneUnnamed(log);
  }
}
