/** Base64 with padding, as section 4 of RFC 4648 defines it. */
module Base64 {
  import opened Wrappers

  type Byte = n: int | 0 <= n < 256

  type Sextet = n: int | 0 <= n < 64

  function Char(n: Sextet): (c: char)
    ensures c != '='
  {
    if n < 26 then 'A' + n as char
    else if n < 52 then 'a' + (n - 26) as char
    else if n < 62 then '0' + (n - 52) as char
    else if n == 62 then '+' else '/'
  }

  function Value(c: char): Option<Sextet> {
    if 'A' <= c <= 'Z' then Some((c - 'A') as int)
    else if 'a' <= c <= 'z' then Some((c - 'a') as int + 26)
    else if '0' <= c <= '9' then Some((c - '0') as int + 52)
    else if c == '+' then Some(62)
    else if c == '/' then Some(63)
    else None
  }

  // The sextets of three bytes, and the bytes of four sextets.

  function S0(a: Byte): Sextet { a / 4 }

  function S1(a: Byte, b: Byte): Sextet { a % 4 * 16 + b / 16 }

  function S2(b: Byte, c: Byte): Sextet { b % 16 * 4 + c / 64 }

  function S3(c: Byte): Sextet { c % 64 }

  function B0(v: Sextet, w: Sextet): Byte { v * 4 + w / 16 }

  function B1(v: Sextet, w: Sextet): Byte { v % 16 * 16 + w / 4 }

  function B2(v: Sextet, w: Sextet): Byte { v % 4 * 64 + w }

  lemma Regrouped(a: Byte, b: Byte, c: Byte)
    ensures B0(S0(a), S1(a, b)) == a && B1(S1(a, b), S2(b, c)) == b && B2(S2(b, c), S3(c)) == c
  {
    assert (a % 4 * 16 + b / 16) / 16 == a % 4;
    assert (b % 16 * 4 + c / 64) / 4 == b % 16;
  }

  function Encode(p: seq<Byte>): string {
    if p == [] then ""
    else if |p| == 1 then [Char(S0(p[0])), Char(S1(p[0], 0)), '=', '=']
    else if |p| == 2 then [Char(S0(p[0])), Char(S1(p[0], p[1])), Char(S2(p[1], 0)), '=']
    else
      [Char(S0(p[0])), Char(S1(p[0], p[1])), Char(S2(p[1], p[2])), Char(S3(p[2]))] + Encode(p[3..])
  }

  /** Padding only at the end, complete groups only, no character outside the alphabet; the unused low bits of the
    * last character are not looked at. */
  function Decode(s: string): Option<seq<Byte>> {
    if s == "" then Some([])
    else if |s| < 4 || Value(s[0]).None? || Value(s[1]).None? then None
    else
      var a, b := Value(s[0]).value, Value(s[1]).value;
      var first := B0(a, b);
      if |s| == 4 && s[2] == '=' && s[3] == '=' then Some([first])
      else if Value(s[2]).None? then None
      else
        var c := Value(s[2]).value;
        var second := B1(b, c);
        if |s| == 4 && s[3] == '=' then Some([first, second])
        else if Value(s[3]).None? then None
        else
          match Decode(s[4..])
          case None => None
          case Some(rest) => Some([first, second, B2(c, Value(s[3]).value)] + rest)
  }

  lemma {:induction false} EncodedLength(p: seq<Byte>)
    ensures 4 * |p| <= 3 * |Encode(p)| <= 4 * (|p| + 2)
  {
    if |p| >= 3 { EncodedLength(p[3..]); }
  }

  lemma ValueOfChar(n: Sextet)
    ensures Value(Char(n)) == Some(n)
  {
  }

  lemma DecodesGroup(a: Byte, b: Byte, c: Byte, rest: string)
    requires Decode(rest).Some?
    ensures Decode([Char(S0(a)), Char(S1(a, b)), Char(S2(b, c)), Char(S3(c))] + rest) ==
            Some([a, b, c] + Decode(rest).value)
  {
    Regrouped(a, b, c);
    DecodesSextets(S0(a), S1(a, b), S2(b, c), S3(c), rest);
  }

  lemma DecodesSextets(v: Sextet, w: Sextet, x: Sextet, y: Sextet, rest: string)
    requires Decode(rest).Some?
    ensures Decode([Char(v), Char(w), Char(x), Char(y)] + rest) ==
            Some([B0(v, w), B1(w, x), B2(x, y)] + Decode(rest).value)
  {
    ValueOfChar(v);
    ValueOfChar(w);
    ValueOfChar(x);
    ValueOfChar(y);
    assert ([Char(v), Char(w), Char(x), Char(y)] + rest)[4..] == rest;
  }

  lemma DecodesTwicePadded(v: Sextet, w: Sextet)
    ensures Decode([Char(v), Char(w), '=', '=']) == Some([B0(v, w)])
  {
    ValueOfChar(v);
    ValueOfChar(w);
  }

  lemma FirstByteBack(a: Byte, b: Byte)
    ensures B0(S0(a), S1(a, b)) == a
  {
    Regrouped(a, b, b);
  }

  lemma DecodesPadded(v: Sextet, w: Sextet, x: Sextet)
    ensures Decode([Char(v), Char(w), Char(x), '=']) == Some([B0(v, w), B1(w, x)])
  {
    ValueOfChar(v);
    ValueOfChar(w);
    ValueOfChar(x);
  }

  lemma DecodesOne(a: Byte)
    ensures Decode(Encode([a])) == Some([a])
  {
    FirstByteBack(a, 0);
    DecodesTwicePadded(S0(a), S1(a, 0));
  }

  lemma DecodesTwo(a: Byte, b: Byte)
    ensures Decode(Encode([a, b])) == Some([a, b])
  {
    Regrouped(a, b, 0);
    DecodesPadded(S0(a), S1(a, b), S2(b, 0));
  }

  lemma DecodesShort(p: seq<Byte>)
    requires |p| < 3
    ensures Decode(Encode(p)) == Some(p)
  {
    if |p| == 1 {
      DecodesOne(p[0]);
      assert p == [p[0]];
    } else if |p| == 2 {
      DecodesTwo(p[0], p[1]);
      assert p == [p[0], p[1]];
    }
  }

  lemma FirstThree(p: seq<Byte>)
    requires |p| >= 3
    ensures p == [p[0], p[1], p[2]] + p[3..]
  {
  }

  /** The examples of section 10 of RFC 4648, and the two last letters of its alphabet. */
  lemma EncodesAsTheStandard()
    ensures Encode([102]) == "Zg==" && Encode([102, 111]) == "Zm8=" && Encode([102, 111, 111]) == "Zm9v"
    ensures Encode([102, 111, 111, 98]) == "Zm9vYg==" && Encode([102, 111, 111, 98, 97, 114]) == "Zm9vYmFy"
    ensures Encode([251, 240]) == "+/A="
  {
    assert [102, 111, 111][3..] == [];
    assert [102, 111, 111, 98][3..] == [98];
    assert [102, 111, 111, 98, 97, 114][3..] == [98, 97, 114];
    assert [98, 97, 114][3..] == [];
  }

  /** Whatever is encoded decodes to itself. */
  lemma {:induction false} DecodesBack(p: seq<Byte>)
    ensures Decode(Encode(p)) == Some(p)
  {
    if |p| < 3 {
      DecodesShort(p);
    } else {
      DecodesBack(p[3..]);
      DecodesGroup(p[0], p[1], p[2], Encode(p[3..]));
      FirstThree(p);
    }
  }
}

/** An account's asset: its login-state files packed into one bounded document, and the declared ones taken out
  * again. */
module AccountAssets {
  import opened Wrappers
  import opened Decimals
  import opened Base64

  const MAX_FILE_BYTES: nat := 256 * 1024
  const MAX_TOTAL_BYTES: nat := 1024 * 1024
  const MAX_FILES: nat := 8

  datatype Json =
    | Null
    | Bool(flag: bool)
    | Num(n: int)
    | Str(text: string)
    | Arr(items: seq<Json>)
    | Obj(fields: seq<Field>)

  /** The fields of an object, each name once, in the order they are written. */
  datatype Field = Field(name: string, value: Json)

  datatype File = File(name: string, payload: seq<Byte>)

  /** `Undecodable` is the decoder's own error: it leaves `unpack_asset` without the module's type. */
  datatype Error = OutsideBounds(name: Option<string>) | Invalid(name: Option<string>) | Undecodable

  // ----- the text of a document -----

  function HexDigit(n: int): char
    requires 0 <= n < 16
  {
    if n < 10 then '0' + n as char else 'a' + (n - 10) as char
  }

  function Unicode(n: int): (s: string)
    requires 0 <= n < 0x10000
    ensures |s| == 6
  {
    ['\\', 'u', HexDigit(n / 4096), HexDigit(n / 256 % 16), HexDigit(n / 16 % 16), HexDigit(n % 16)]
  }

  function Escaped(c: char): (s: string)
    ensures |s| >= 1
  {
    var n := c as int;
    if c == '"' then "\\\"" else if c == '\\' then "\\\\"
    else if c == '\n' then "\\n" else if c == '\r' then "\\r" else if c == '\t' then "\\t"
    else if n == 8 then "\\b" else if n == 12 then "\\f"
    else if 32 <= n < 127 then [c]
    else if n < 0x10000 then Unicode(n)
    else Unicode(0xd800 + (n - 0x10000) / 1024) + Unicode(0xdc00 + (n - 0x10000) % 1024)
  }

  function Quoted(s: string): string {
    "\"" + EscapedAll(s) + "\""
  }

  function EscapedAll(s: string): (r: string)
    ensures |r| >= |s|
  {
    if s == "" then "" else Escaped(s[0]) + EscapedAll(s[1..])
  }

  function Render(j: Json): string
    decreases j
  {
    match j
    case Null => "null"
    case Bool(flag) => if flag then "true" else "false"
    case Num(n) => if n < 0 then "-" + Decimal(-n) else Decimal(n)
    case Str(text) => Quoted(text)
    case Arr(items) => "[" + RenderItems(items) + "]"
    case Obj(fields) => "{" + RenderFields(fields) + "}"
  }

  function RenderItems(items: seq<Json>): string
    decreases items
  {
    if items == [] then ""
    else if |items| == 1 then Render(items[0])
    else Render(items[0]) + "," + RenderItems(items[1..])
  }

  function RenderFields(fields: seq<Field>): string
    decreases fields
  {
    if fields == [] then ""
    else
      var f := fields[0];
      var one := Quoted(f.name) + ":" + Render(f.value);
      if |fields| == 1 then one else one + "," + RenderFields(fields[1..])
  }

  // ----- packing -----

  function Raw(files: seq<File>): nat {
    if files == [] then 0 else Raw(files[..|files| - 1]) + |files[|files| - 1].payload|
  }

  function FileError(f: File, total: nat): Option<Error> {
    if f.payload == [] then Some(OutsideBounds(Some(f.name)))
    else if |f.payload| > MAX_FILE_BYTES then Some(OutsideBounds(Some(f.name)))
    else if total + |f.payload| > MAX_TOTAL_BYTES then Some(OutsideBounds(None))
    else None
  }

  function EntryOf(f: File, sha: seq<Byte> -> string): Field {
    Field(f.name, Obj([Field("content", Str(Encode(f.payload))), Field("sha256", Str(sha(f.payload))),
                       Field("size", Num(|f.payload|))]))
  }

  function Entries(files: seq<File>, sha: seq<Byte> -> string): seq<Field> {
    if files == [] then [] else Entries(files[..|files| - 1], sha) + [EntryOf(files[|files| - 1], sha)]
  }

  function DocumentOf(entries: seq<Field>): Json {
    Obj([Field("files", Obj(entries)), Field("schema_version", Num(1))])
  }

  /** The first file, in name order, that breaks a bound. */
  function FirstError(files: seq<File>, i: nat): Option<Error>
    requires i <= |files|
    decreases |files| - i
  {
    if i == |files| then None
    else if FileError(files[i], Raw(files[..i])).Some? then FileError(files[i], Raw(files[..i]))
    else FirstError(files, i + 1)
  }

  /** `pack_asset` for the files of a mapping in name order. */
  function Packed(files: seq<File>, sha: seq<Byte> -> string): Result<Json, Error> {
    if |files| > MAX_FILES then Err(OutsideBounds(None))
    else if FirstError(files, 0).Some? then Err(FirstError(files, 0).value)
    else
      var document := DocumentOf(Entries(files, sha));
      if |Render(document)| > MAX_TOTAL_BYTES then Err(OutsideBounds(None)) else Ok(document)
  }

  method PackAsset(files: seq<File>, sha: seq<Byte> -> string) returns (answer: Result<Json, Error>)
    ensures answer == Packed(files, sha)
  {
    if |files| > MAX_FILES { return Err(OutsideBounds(None)); }
    var envelope, total := [], 0;
    for i := 0 to |files|
      invariant envelope == Entries(files[..i], sha) && total == Raw(files[..i])
      invariant FirstError(files, 0) == FirstError(files, i)
    {
      var f := files[i];
      if f.payload == [] { return Err(OutsideBounds(Some(f.name))); }
      if |f.payload| > MAX_FILE_BYTES { return Err(OutsideBounds(Some(f.name))); }
      assert files[..i + 1][..i] == files[..i];
      total := total + |f.payload|;
      if total > MAX_TOTAL_BYTES { return Err(OutsideBounds(None)); }
      envelope := envelope + [EntryOf(f, sha)];
    }
    assert files[..|files|] == files;
    var document := DocumentOf(envelope);
    if |Render(document)| > MAX_TOTAL_BYTES { return Err(OutsideBounds(None)); }
    answer := Ok(document);
  }

  // ----- unpacking -----

  function Get(fields: seq<Field>, name: string): Option<Json> {
    if fields == [] then None
    else if fields[0].name == name then Some(fields[0].value)
    else Get(fields[1..], name)
  }

  /** `document.get("schema_version") == 1`, where `True` equals one as well. */
  predicate SchemaOne(j: Option<Json>) {
    j == Some(Num(1)) || j == Some(Bool(true))
  }

  function StoredFiles(document: Option<Json>): Option<seq<Field>> {
    if document.None? || !document.value.Obj? || !SchemaOne(Get(document.value.fields, "schema_version")) then None
    else
      match Get(document.value.fields, "files")
      case Some(Obj(fields)) => Some(fields)
      case _ => None
  }

  /** The payload of a declared entry. */
  function Payload(f: Field, sha: seq<Byte> -> string): Result<seq<Byte>, Error> {
    if !f.value.Obj? then Err(Invalid(Some(f.name)))
    else
      match (Get(f.value.fields, "content"), Get(f.value.fields, "sha256"))
      case (Some(Str(content)), Some(Str(digest))) =>
        (match Decode(content)
         case None => Err(Undecodable)
         case Some(payload) =>
           if sha(payload) != digest then Err(Invalid(Some(f.name)))
           else if |payload| > MAX_FILE_BYTES then Err(OutsideBounds(Some(f.name)))
           else Ok(payload))
      case _ => Err(Invalid(Some(f.name)))
  }

  type Unpacking = map<string, seq<Byte>>

  function Admitted(stored: seq<Field>, declared: set<string>, sha: seq<Byte> -> string, got: Unpacking)
    : Result<Unpacking, Error>
  {
    if stored == [] then Ok(got)
    else if stored[0].name !in declared then Admitted(stored[1..], declared, sha, got)
    else
      match Payload(stored[0], sha)
      case Err(e) => Err(e)
      case Ok(payload) => Admitted(stored[1..], declared, sha, got[stored[0].name := payload])
  }

  /** `unpack_asset`; a blob that is not JSON text at all is `None`. */
  function Unpacked(document: Option<Json>, declared: set<string>, sha: seq<Byte> -> string): Result<Unpacking, Error> {
    match StoredFiles(document)
    case None => Err(Invalid(None))
    case Some(stored) => Admitted(stored, declared, sha, map[])
  }

  method UnpackAsset(document: Option<Json>, declared: seq<string>, sha: seq<Byte> -> string)
    returns (answer: Result<Unpacking, Error>)
    ensures answer == Unpacked(document, (set name <- declared), sha)
  {
    var stored := StoredFiles(document);
    if stored.None? { return Err(Invalid(None)); }
    var declaredSet := set name <- declared;
    var files: Unpacking := map[];
    for i := 0 to |stored.value|
      invariant Admitted(stored.value[i..], declaredSet, sha, files) == Unpacked(document, declaredSet, sha)
    {
      var entry := stored.value[i];
      assert stored.value[i..][0] == entry && stored.value[i..][1..] == stored.value[i + 1..];
      if entry.name in declaredSet {
        var payload := Payload(entry, sha);
        if payload.Err? { return Err(payload.error); }
        files := files[entry.name := payload.value];
      }
    }
    answer := Ok(files);
  }

  // ----- the round trip -----

  lemma {:induction false} NoFileError(files: seq<File>, i: nat)
    requires i <= |files|
    ensures FirstError(files, i).None? <==> forall k | i <= k < |files| :: FileError(files[k], Raw(files[..k])).None?
    decreases |files| - i
  {
    if i < |files| { NoFileError(files, i + 1); }
  }

  lemma {:induction false} EntriesAre(files: seq<File>, sha: seq<Byte> -> string)
    ensures |Entries(files, sha)| == |files|
    ensures forall k | 0 <= k < |files| :: Entries(files, sha)[k] == EntryOf(files[k], sha)
  {
    if files != [] { EntriesAre(files[..|files| - 1], sha); }
  }

  lemma PayloadOfEntry(f: File, sha: seq<Byte> -> string)
    requires |f.payload| <= MAX_FILE_BYTES
    ensures Payload(EntryOf(f, sha), sha) == Ok(f.payload)
  {
    var fields := EntryOf(f, sha).value.fields;
    assert Get(fields, "content") == Some(Str(Encode(f.payload)));
    assert fields[1..][0].name == "sha256";
    assert Get(fields, "sha256") == Get(fields[1..], "sha256") == Some(Str(sha(f.payload)));
    DecodesBack(f.payload);
  }

  ghost predicate DistinctNames(files: seq<File>) {
    forall i, j | 0 <= i < j < |files| :: files[i].name != files[j].name
  }

  /** Exactly the declared files, with exactly their payloads. */
  ghost predicate Restricted(got: Unpacking, files: seq<File>, declared: set<string>) {
    && (forall name :: name in got <==> name in declared && exists f <- files :: f.name == name)
    && forall f <- files :: f.name in got ==> got[f.name] == f.payload
  }

  lemma {:induction false} AdmitsThePacked(files: seq<File>, declared: set<string>, sha: seq<Byte> -> string, k: nat,
                                           got: Unpacking)
    requires k <= |files| && DistinctNames(files) && forall f <- files :: |f.payload| <= MAX_FILE_BYTES
    requires Restricted(got, files[..k], declared)
    ensures |Entries(files, sha)| == |files|
    ensures Admitted(Entries(files, sha)[k..], declared, sha, got).Ok?
    ensures Restricted(Admitted(Entries(files, sha)[k..], declared, sha, got).value, files, declared)
    decreases |files| - k
  {
    EntriesAre(files, sha);
    var entries := Entries(files, sha);
    if k == |files| {
      assert files[..k] == files;
    } else {
      var f := files[k];
      assert entries[k..][0] == EntryOf(f, sha) && entries[k..][1..] == entries[k + 1..];
      PayloadOfEntry(f, sha);
      var next := if f.name in declared then got[f.name := f.payload] else got;
      RestrictedGrows(files, declared, k, got);
      AdmitsThePacked(files, declared, sha, k + 1, next);
    }
  }

  lemma RestrictedGrows(files: seq<File>, declared: set<string>, k: nat, got: Unpacking)
    requires k < |files| && DistinctNames(files) && Restricted(got, files[..k], declared)
    ensures var f := files[k];
            Restricted(if f.name in declared then got[f.name := f.payload] else got, files[..k + 1], declared)
  {
    var f := files[k];
    assert files[..k + 1] == files[..k] + [f];
    forall g <- files[..k] ensures g.name != f.name {
      var i :| 0 <= i < k && files[i] == g;
      assert files[i].name != files[k].name;
    }
  }

  /** What was packed comes out again, cut down to the declared names and never refused. */
  lemma UnpacksThePacked(files: seq<File>, declared: set<string>, sha: seq<Byte> -> string)
    requires DistinctNames(files) && Packed(files, sha).Ok?
    ensures var r := Unpacked(Some(Packed(files, sha).value), declared, sha);
            r.Ok? && Restricted(r.value, files, declared)
  {
    var document := Packed(files, sha).value;
    var entries := Entries(files, sha);
    assert document.fields[1..][0] == Field("schema_version", Num(1));
    assert Get(document.fields, "schema_version") == Get(document.fields[1..], "schema_version") == Some(Num(1));
    assert Get(document.fields, "files") == Some(Obj(entries));
    assert StoredFiles(Some(document)) == Some(entries);
    NoFileError(files, 0);
    forall f <- files ensures |f.payload| <= MAX_FILE_BYTES {
      var k :| 0 <= k < |files| && files[k] == f;
      assert FileError(files[k], Raw(files[..k])).None?;
    }
    AdmitsThePacked(files, declared, sha, 0, map[]);
    assert entries[0..] == entries;
  }

  // ----- the real bound -----

  lemma RenderedEntry(f: File, sha: seq<Byte> -> string)
    requires |sha(f.payload)| == 64
    ensures 3 * |Quoted(f.name) + ":" + Render(EntryOf(f, sha).value)| >= 4 * |f.payload| + 3 * 102
  {
    var fields := EntryOf(f, sha).value.fields;
    EncodedLength(f.payload);
    assert fields[1..] == [fields[1], fields[2]] && fields[1..][1..] == [fields[2]];
    RenderedField(fields);
    RenderedField(fields[1..]);
    RenderedField(fields[2..]);
    PlainText("content");
    PlainText("sha256");
    PlainText("size");
  }

  lemma {:induction false} PlainText(s: string)
    ensures |Quoted(s)| >= |s| + 2
  {
  }

  lemma RenderedField(fields: seq<Field>)
    requires fields != []
    ensures |RenderFields(fields)| == |Quoted(fields[0].name)| + 1 + |Render(fields[0].value)| +
                                      if |fields| == 1 then 0 else 1 + |RenderFields(fields[1..])|
  {
  }

  ghost predicate HexDigests(files: seq<File>, sha: seq<Byte> -> string) {
    forall f <- files :: |sha(f.payload)| == 64
  }

  lemma RawOneMore(files: seq<File>, k: nat)
    requires k < |files|
    ensures Raw(files[..k + 1]) == Raw(files[..k]) + |files[k].payload|
  {
    assert files[..k + 1][..k] == files[..k];
  }

  lemma {:induction false} RawGrows(files: seq<File>, k: nat)
    requires k <= |files|
    ensures Raw(files[..k]) <= Raw(files)
    decreases |files| - k
  {
    if k < |files| {
      RawOneMore(files, k);
      RawGrows(files, k + 1);
    } else {
      assert files[..k] == files;
    }
  }

  lemma {:induction false} RenderedEntries(files: seq<File>, sha: seq<Byte> -> string, k: nat)
    requires k <= |files| == |Entries(files, sha)| && HexDigests(files, sha)
    ensures 3 * |RenderFields(Entries(files, sha)[k..])| >= 4 * (Raw(files) - Raw(files[..k])) + 306 * (|files| - k)
    decreases |files| - k
  {
    if k == |files| {
      assert files[..k] == files;
    } else {
      var rest := Entries(files, sha)[k..];
      EntriesAre(files, sha);
      RawOneMore(files, k);
      RenderedEntries(files, sha, k + 1);
      RenderedField(rest);
      assert rest[1..] == Entries(files, sha)[k + 1..] && rest[0] == EntryOf(files[k], sha);
      RenderedEntry(files[k], sha);
    }
  }

  /** How long a document is at least: base64 turns three bytes into four characters, and every file costs 102 more. */
  lemma RenderedDocument(files: seq<File>, sha: seq<Byte> -> string)
    requires HexDigests(files, sha)
    ensures 3 * |Render(DocumentOf(Entries(files, sha)))| >= 4 * Raw(files) + 306 * |files| + 93
  {
    EntriesAre(files, sha);
    var entries := Entries(files, sha);
    RenderedEntries(files, sha, 0);
    assert entries[0..] == entries && files[..0] == [];
    var fields := DocumentOf(entries).fields;
    RenderedField(fields);
    RenderedField(fields[1..]);
    PlainText("files");
    PlainText("schema_version");
  }

  ghost predicate FilesInBounds(files: seq<File>) {
    forall f <- files :: 0 < |f.payload| <= 256 * 1024
  }

  lemma AcceptedIsInBounds(files: seq<File>)
    requires FirstError(files, 0).None?
    ensures FilesInBounds(files)
  {
    NoFileError(files, 0);
    forall f <- files ensures 0 < |f.payload| <= MAX_FILE_BYTES {
      var k :| 0 <= k < |files| && files[k] == f;
      assert FileError(files[k], Raw(files[..k])).None?;
    }
  }

  lemma InBoundsIsAccepted(files: seq<File>)
    requires Raw(files) <= MAX_TOTAL_BYTES && FilesInBounds(files)
    ensures FirstError(files, 0).None?
  {
    NoFileError(files, 0);
    forall k | 0 <= k < |files| ensures FileError(files[k], Raw(files[..k])).None? {
      assert files[k] in files;
      RawOneMore(files, k);
      RawGrows(files, k + 1);
    }
  }

  /** If the raw bytes fit, the loop refuses exactly an empty or an oversized file. */
  lemma LoopAcceptsExactly(files: seq<File>)
    requires Raw(files) <= MAX_TOTAL_BYTES || FirstError(files, 0).None?
    ensures FirstError(files, 0).None? <==> FilesInBounds(files)
  {
    if FirstError(files, 0).None? { AcceptedIsInBounds(files); }
    if Raw(files) <= MAX_TOTAL_BYTES && FilesInBounds(files) { InBoundsIsAccepted(files); }
  }

  /** An asset is accepted exactly when there are at most eight files, none empty and none above 256 KiB, and the
    * document fits one MiB: the accepted assets would be the same without the cap on the sum of the raw sizes. */
  lemma PacksExactly(files: seq<File>, sha: seq<Byte> -> string)
    requires HexDigests(files, sha)
    ensures Packed(files, sha).Ok? <==>
            && |files| <= 8 && FilesInBounds(files)
            && |Render(DocumentOf(Entries(files, sha)))| <= 1024 * 1024
    ensures Packed(files, sha).Err? ==> Packed(files, sha).error.OutsideBounds?
  {
    RenderedDocument(files, sha);
    AlwaysOutsideBounds(files, 0);
    if |Render(DocumentOf(Entries(files, sha)))| <= MAX_TOTAL_BYTES { LoopAcceptsExactly(files); }
  }

  lemma {:induction false} AlwaysOutsideBounds(files: seq<File>, i: nat)
    requires i <= |files|
    ensures FirstError(files, i).Some? ==> FirstError(files, i).value.OutsideBounds?
    decreases |files| - i
  {
    if i < |files| { AlwaysOutsideBounds(files, i + 1); }
  }

  /** A refusal that names a file names the first one that is empty or above 256 KiB, in name order, and the files
    * before it were in bounds, alone and together. */
  ghost predicate BreaksFirst(files: seq<File>, i: int, name: string) {
    && 0 <= i < |files| && files[i].name == name && !(0 < |files[i].payload| <= 256 * 1024)
    && forall j | 0 <= j < i :: 0 < |files[j].payload| <= 256 * 1024 && Raw(files[..j + 1]) <= 1024 * 1024
  }

  /** From file `i` on, the first refusal is that of file `k`. */
  ghost predicate FirstAt(files: seq<File>, i: nat, k: int)
    requires i <= |files|
  {
    && i <= k < |files| && FirstError(files, i) == FileError(files[k], Raw(files[..k]))
    && forall j | i <= j < k :: FileError(files[j], Raw(files[..j])).None?
  }

  lemma {:induction false} FirstErrorIsTheFirst(files: seq<File>, i: nat)
    requires i <= |files| && FirstError(files, i).Some?
    ensures exists k :: FirstAt(files, i, k)
    decreases |files| - i
  {
    if FileError(files[i], Raw(files[..i])).Some? {
      assert FirstAt(files, i, i);
    } else {
      FirstErrorIsTheFirst(files, i + 1);
      var k :| FirstAt(files, i + 1, k);
      assert FirstAt(files, i, k);
    }
  }

  lemma FileErrorAt(files: seq<File>, j: nat)
    requires j < |files|
    ensures FileError(files[j], Raw(files[..j])).None? <==>
            0 < |files[j].payload| <= 256 * 1024 && Raw(files[..j + 1]) <= 1024 * 1024
    ensures forall name :: FileError(files[j], Raw(files[..j])) == Some(OutsideBounds(Some(name))) <==>
              files[j].name == name && !(0 < |files[j].payload| <= 256 * 1024)
  {
    RawOneMore(files, j);
  }

  lemma FirstAtBreaksFirst(files: seq<File>, k: nat, name: string)
    requires FirstAt(files, 0, k) && FirstError(files, 0) == Some(OutsideBounds(Some(name)))
    ensures BreaksFirst(files, k, name)
  {
    FileErrorAt(files, k);
    forall j | 0 <= j < k ensures 0 < |files[j].payload| <= 256 * 1024 && Raw(files[..j + 1]) <= 1024 * 1024 {
      FileErrorAt(files, j);
    }
  }

  lemma FirstErrorBreaksFirst(files: seq<File>, name: string)
    requires FirstError(files, 0) == Some(OutsideBounds(Some(name)))
    ensures exists i :: BreaksFirst(files, i, name)
  {
    FirstErrorIsTheFirst(files, 0);
    var k :| FirstAt(files, 0, k);
    FirstAtBreaksFirst(files, k, name);
  }

  lemma {:induction false} BreaksFirstIsTheError(files: seq<File>, i: nat, k: nat, name: string)
    requires k <= i && BreaksFirst(files, i, name)
    ensures FirstError(files, k) == Some(OutsideBounds(Some(name)))
    decreases i - k
  {
    FileErrorAt(files, k);
    if k < i { BreaksFirstIsTheError(files, i, k + 1, name); }
  }

  lemma RefusalNamesTheFirst(files: seq<File>, sha: seq<Byte> -> string, name: string)
    ensures Packed(files, sha) == Err(OutsideBounds(Some(name))) <==>
            |files| <= 8 && exists i :: BreaksFirst(files, i, name)
  {
    if FirstError(files, 0) == Some(OutsideBounds(Some(name))) { FirstErrorBreaksFirst(files, name); }
    forall i | BreaksFirst(files, i, name) ensures FirstError(files, 0) == Some(OutsideBounds(Some(name))) {
      BreaksFirstIsTheError(files, i, 0, name);
    }
  }

  /** No accepted asset holds more than 786432 raw bytes, three quarters of the cap the code names. */
  lemma RealBound(files: seq<File>, sha: seq<Byte> -> string)
    requires HexDigests(files, sha) && Packed(files, sha).Ok?
    ensures 4 * Raw(files) + 306 * |files| + 93 <= 3 * MAX_TOTAL_BYTES
    ensures Raw(files) <= 786432
  {
    RenderedDocument(files, sha);
  }

  // ----- what unpacking looks at -----

  function Declared(stored: seq<Field>, declared: set<string>): seq<Field> {
    if stored == [] then []
    else if stored[0].name in declared then [stored[0]] + Declared(stored[1..], declared)
    else Declared(stored[1..], declared)
  }

  /** Entries outside the declared list are invisible, malformed ones included. */
  lemma {:induction false} UndeclaredIsInvisible(stored: seq<Field>, declared: set<string>, sha: seq<Byte> -> string,
                                                 got: Unpacking)
    ensures Admitted(stored, declared, sha, got) == Admitted(Declared(stored, declared), declared, sha, got)
  {
    if stored == [] { return; }
    var more := Declared(stored[1..], declared);
    if stored[0].name in declared {
      assert ([stored[0]] + more)[1..] == more;
      var payload := Payload(stored[0], sha);
      if payload.Ok? { UndeclaredIsInvisible(stored[1..], declared, sha, got[stored[0].name := payload.value]); }
    } else {
      UndeclaredIsInvisible(stored[1..], declared, sha, got);
    }
  }

  /** The entry is an object whose content is the payload in base64 and whose digest is that of the payload, and the
    * payload is in bounds. */
  ghost predicate Whole(f: Field, sha: seq<Byte> -> string, payload: seq<Byte>) {
    && f.value.Obj? && |payload| <= 256 * 1024
    && Get(f.value.fields, "sha256") == Some(Str(sha(payload)))
    && exists content ::
         Get(f.value.fields, "content") == Some(Str(content)) && Decode(content) == Some(payload)
  }

  lemma WholeExactly(f: Field, sha: seq<Byte> -> string)
    ensures forall payload :: Payload(f, sha) == Ok(payload) <==> Whole(f, sha, payload)
  {
  }

  /** A document is admitted exactly when every declared entry is whole, and then nothing undeclared comes out. */
  lemma {:induction false} AdmitsExactly(stored: seq<Field>, declared: set<string>, sha: seq<Byte> -> string,
                                         got: Unpacking)
    ensures Admitted(stored, declared, sha, got).Ok? <==>
            forall f <- stored :: f.name in declared ==> exists payload :: Whole(f, sha, payload)
    ensures Admitted(stored, declared, sha, got).Ok? ==>
            forall name <- Admitted(stored, declared, sha, got).value :: name in got || name in declared
  {
    if stored == [] { return; }
    assert stored == [stored[0]] + stored[1..];
    if stored[0].name in declared {
      var payload := Payload(stored[0], sha);
      WholeExactly(stored[0], sha);
      if payload.Ok? {
        assert Whole(stored[0], sha, payload.value);
        AdmitsExactly(stored[1..], declared, sha, got[stored[0].name := payload.value]);
      } else {
        forall p ensures !Whole(stored[0], sha, p) {}
      }
    } else {
      AdmitsExactly(stored[1..], declared, sha, got);
    }
  }

  ghost predicate DistinctFields(fields: seq<Field>) {
    forall i, j | 0 <= i < j < |fields| :: fields[i].name != fields[j].name
  }

  /** What comes out under a declared name is the payload its entry is whole with. */
  lemma {:induction false} AdmitsPayloads(stored: seq<Field>, declared: set<string>, sha: seq<Byte> -> string,
                                          got: Unpacking)
    requires Admitted(stored, declared, sha, got).Ok? && DistinctFields(stored)
    ensures var r := Admitted(stored, declared, sha, got).value;
            && (forall f <- stored | f.name in declared :: f.name in r && Whole(f, sha, r[f.name]))
            && (forall name <- got | (forall f <- stored :: f.name != name) :: name in r && r[name] == got[name])
            && (forall name <- r :: name in got || exists f <- stored :: f.name == name)
  {
    if stored == [] { return; }
    var f, rest := stored[0], stored[1..];
    assert stored == [f] + rest;
    forall g <- rest ensures g.name != f.name { var i :| 0 <= i < |rest| && rest[i] == g; assert stored[i + 1] == g; }
    assert forall i | 0 <= i < |rest| :: rest[i] == stored[i + 1];
    if f.name in declared {
      WholeExactly(f, sha);
      AdmitsPayloads(rest, declared, sha, got[f.name := Payload(f, sha).value]);
    } else {
      AdmitsPayloads(rest, declared, sha, got);
    }
  }

  /** The files of a document of version one. */
  ghost predicate IsDocument(document: Option<Json>, stored: seq<Field>) {
    && document.Some? && document.value.Obj?
    && (Get(document.value.fields, "schema_version") == Some(Num(1)) ||
        Get(document.value.fields, "schema_version") == Some(Bool(true)))
    && Get(document.value.fields, "files") == Some(Obj(stored))
  }

  /** A blob unpacks exactly if it is a document of version one whose declared entries are whole, and then to exactly
    * the declared files it holds, with their payloads. */
  lemma UnpacksExactly(document: Option<Json>, declared: set<string>, sha: seq<Byte> -> string)
    ensures Unpacked(document, declared, sha).Ok? <==>
            exists stored: seq<Field> :: && IsDocument(document, stored)
                             && forall f <- stored :: f.name in declared ==> exists payload :: Whole(f, sha, payload)
    ensures forall stored: seq<Field> ::
              IsDocument(document, stored) && DistinctFields(stored) && Unpacked(document, declared, sha).Ok?
              ==> var files := Unpacked(document, declared, sha).value;
                  && (forall name :: name in files <==> name in declared && exists f <- stored :: f.name == name)
                  && (forall f <- stored | f.name in declared :: f.name in files && Whole(f, sha, files[f.name]))
  {
    var found := StoredFiles(document);
    if found.Some? {
      assert IsDocument(document, found.value);
      AdmitsExactly(found.value, declared, sha, map[]);
      if Unpacked(document, declared, sha).Ok? && DistinctFields(found.value) {
        AdmitsPayloads(found.value, declared, sha, map[]);
      }
    }
    forall stored: seq<Field> | IsDocument(document, stored) ensures found == Some(stored) {}
  }

  /** Why an entry is not whole. */
  ghost predicate Broken(f: Field, sha: seq<Byte> -> string, error: Error) {
    var content := if f.value.Obj? then Get(f.value.fields, "content") else None;
    var digest := if f.value.Obj? then Get(f.value.fields, "sha256") else None;
    var text := content.Some? && content.value.Str? && digest.Some? && digest.value.Str?;
    var payload := if text then Decode(content.value.text) else None;
    match error
    case Invalid(name) =>
      name == Some(f.name) && (!text || (payload.Some? && sha(payload.value) != digest.value.text))
    case Undecodable => text && payload.None?
    case OutsideBounds(name) =>
      && name == Some(f.name) && payload.Some?
      && sha(payload.value) == digest.value.text && |payload.value| > 256 * 1024
  }

  lemma BrokenExactly(f: Field, sha: seq<Byte> -> string)
    ensures forall error :: Payload(f, sha) == Err(error) <==> Broken(f, sha, error)
  {
  }

  /** An unpacking that is refused for an entry is refused for the first declared one that is not whole. */
  lemma {:induction false} FirstBrokenEntryEnds(stored: seq<Field>, declared: set<string>, sha: seq<Byte> -> string,
                                                got: Unpacking)
    requires Admitted(stored, declared, sha, got).Err?
    ensures exists i :: && 0 <= i < |stored| && stored[i].name in declared
                        && Broken(stored[i], sha, Admitted(stored, declared, sha, got).error)
                        && forall j | 0 <= j < i && stored[j].name in declared ::
                             exists payload :: Whole(stored[j], sha, payload)
  {
    var f, rest := stored[0], stored[1..];
    BrokenExactly(f, sha);
    WholeExactly(f, sha);
    var payload := Payload(f, sha);
    if f.name in declared && payload.Err? {
      assert Broken(stored[0], sha, payload.error);
    } else {
      var more := if f.name in declared then got[f.name := payload.value] else got;
      FirstBrokenEntryEnds(rest, declared, sha, more);
      var i :| && 0 <= i < |rest| && rest[i].name in declared
               && Broken(rest[i], sha, Admitted(rest, declared, sha, more).error)
               && forall j | 0 <= j < i && rest[j].name in declared :: exists p :: Whole(rest[j], sha, p);
      assert stored[i + 1] == rest[i];
      if f.name in declared { assert Whole(stored[0], sha, payload.value); }
      forall j | 0 <= j < i + 1 && stored[j].name in declared ensures exists p :: Whole(stored[j], sha, p) {
        if j > 0 { assert stored[j] == rest[j - 1]; }
      }
    }
  }

  /** A declared entry whose digest is not that of its content refuses the whole asset. */
  lemma WrongDigestIsRefused(document: Option<Json>, declared: set<string>, sha: seq<Byte> -> string,
                             stored: seq<Field>, f: Field, content: string)
    requires IsDocument(document, stored) && f in stored && f.name in declared && f.value.Obj?
    requires Get(f.value.fields, "content") == Some(Str(content)) && Decode(content).Some?
    requires Get(f.value.fields, "sha256") != Some(Str(sha(Decode(content).value)))
    ensures Unpacked(document, declared, sha).Err?
  {
    UnpacksExactly(document, declared, sha);
    forall payload ensures !Whole(f, sha, payload) {}
  }
}
