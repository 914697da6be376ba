/** The canonical encoding of a manifest that its image tag is computed from. */
module Canonical {
  import opened Protocol
  import opened Text

  /** The declared fields of a manifest. */
  datatype Source = Source(from: string, to: string, mode: string)
  datatype Manifest = Manifest(
    schema: string, image: string, digest: string, packages: seq<string>, allowNetwork: bool,
    command: seq<string>, workdir: string, env: seq<string>, writable: seq<string>,
    sources: seq<Source>, modules: seq<string>)

  const UNIT: char := '\U{001F}'
  const NEWLINE: char := '\n'

  /**
   What the encoding needs of string quoting: it can be undone, and a quoted string holds no newline and no unit
   separator.
   */
  ghost predicate Quoting(quote: string -> string, unquote: string -> string) {
    forall s: string :: Quoted(quote, unquote, s)
  }

  predicate Quoted(quote: string -> string, unquote: string -> string, s: string) {
    unquote(quote(s)) == s && NEWLINE !in quote(s) && UNIT !in quote(s)
  }

  // ---------------------------------------------------------------- sorting

  predicate Ordered(s: seq<string>) {
    forall i, j :: 0 <= i < j < |s| ==> !Less(s[j], s[i])
  }

  function Insert(x: string, s: seq<string>): (r: seq<string>)
    requires Ordered(s)
    ensures Ordered(r) && multiset(r) == multiset(s) + multiset{x}
  {
    if s == [] then [x]
    else if Less(s[0], x) then
      var rest := Insert(x, s[1..]);
      InsertedBehind(x, s, rest);
      [s[0]] + rest
    else
      BelowAll(x, s);
      [x] + s
  }

  lemma InsertedBehind(x: string, s: seq<string>, rest: seq<string>)
    requires Ordered(s) && s != [] && Less(s[0], x)
    requires Ordered(rest) && multiset(rest) == multiset(s[1..]) + multiset{x}
    ensures Ordered([s[0]] + rest) && multiset([s[0]] + rest) == multiset(s) + multiset{x}
  {
    assert s == [s[0]] + s[1..];
    LessAsymmetric(s[0], x);
    forall j | 0 <= j < |rest| ensures !Less(rest[j], s[0]) {
      assert rest[j] in multiset(rest);
      assert rest[j] in s[1..] || rest[j] == x;
    }
  }

  lemma LessAsymmetric(a: string, b: string)
    requires Less(a, b)
    ensures !Less(b, a)
  {
    if Less(b, a) {
      LessTransitive(a, b, a);
      LessIrreflexive(a);
    }
  }

  lemma BelowAll(x: string, s: seq<string>)
    requires Ordered(s) && s != [] && !Less(s[0], x)
    ensures forall i :: 0 <= i < |s| ==> !Less(s[i], x)
  {
    forall i | 0 <= i < |s| ensures !Less(s[i], x) {
      NotLessTransitive(s[i], s[0], x);
    }
  }

  lemma NotLessTransitive(a: string, b: string, c: string)
    requires (!Less(a, b) || a == b) && !Less(b, c)
    ensures !Less(a, c)
  {
    LessTotal(b, c);
    LessTotal(a, b);
    if Less(a, c) {
      if Less(c, b) {
        LessTransitive(a, c, b);
      }
    }
  }

  /** sort.Strings. */
  function Sort(s: seq<string>): (r: seq<string>)
    ensures Ordered(r) && multiset(r) == multiset(s)
  {
    if s == [] then []
    else
      assert s == s[..|s| - 1] + [s[|s| - 1]];
      Insert(s[|s| - 1], Sort(s[..|s| - 1]))
  }

  /** A multiset has one ordering. */
  lemma {:induction false} OrderedUnique(s: seq<string>, t: seq<string>)
    requires Ordered(s) && Ordered(t) && multiset(s) == multiset(t)
    ensures s == t
    decreases |s|
  {
    if s == [] {
      assert |multiset(t)| == 0;
    } else {
      SameFirst(s, t);
      WithoutFirst(s);
      WithoutFirst(t);
      OrderedUnique(s[1..], t[1..]);
      assert s == [s[0]] + s[1..] && t == [t[0]] + t[1..];
    }
  }

  lemma WithoutFirst(s: seq<string>)
    requires s != []
    ensures multiset(s[1..]) == multiset(s) - multiset{s[0]}
  {
    assert s == [s[0]] + s[1..];
  }

  lemma SameFirst(s: seq<string>, t: seq<string>)
    requires Ordered(s) && Ordered(t) && multiset(s) == multiset(t) && s != []
    ensures t != [] && s[0] == t[0]
  {
    assert s[0] in multiset(t) && t != [];
    assert t[0] in multiset(s);
    FirstIsLeast(s, t[0]);
    FirstIsLeast(t, s[0]);
    LessTotal(s[0], t[0]);
  }

  lemma FirstIsLeast(s: seq<string>, x: string)
    requires Ordered(s) && x in s
    ensures !Less(x, s[0])
  {
    LessIrreflexive(x);
  }

  // ---------------------------------------------------------------- cutting a text at a separator

  /** strings.Cut at one character. */
  function Cut(text: string, at: char): Option<(string, string)> {
    if text == "" then None
    else if text[0] == at then Some(("", text[1..]))
    else
      match Cut(text[1..], at)
      case None => None
      case Some((before, after)) => Some(([text[0]] + before, after))
  }

  lemma {:induction false} CutPrinted(before: string, at: char, after: string)
    requires at !in before
    ensures Cut(before + [at] + after, at) == Some((before, after))
    decreases |before|
  {
    var text := before + [at] + after;
    if before == "" {
      assert text == [at] + after;
    } else {
      assert text[1..] == before[1..] + [at] + after;
      CutPrinted(before[1..], at, after);
      assert before == [before[0]] + before[1..];
    }
  }

  /** Every item followed by the separator. */
  function Terminated(items: seq<string>, at: char): string {
    if items == [] then "" else items[0] + [at] + Terminated(items[1..], at)
  }

  /** The items of a terminated text. */
  function Items(text: string, at: char): seq<string>
    decreases |text|
  {
    match Cut(text, at)
    case None => []
    case Some((before, after)) => CutShortens(text, at); [before] + Items(after, at)
  }

  lemma {:induction false} CutShortens(text: string, at: char)
    requires Cut(text, at).Some?
    ensures |Cut(text, at).value.1| < |text|
    decreases |text|
  {
    if text[0] != at {
      CutShortens(text[1..], at);
    }
  }

  predicate Free(items: seq<string>, at: char) {
    forall i :: 0 <= i < |items| ==> at !in items[i]
  }

  lemma {:induction false} ItemsOfTerminated(items: seq<string>, at: char)
    requires Free(items, at)
    ensures Items(Terminated(items, at), at) == items
    decreases |items|
  {
    if items != [] {
      CutPrinted(items[0], at, Terminated(items[1..], at));
      ItemsOfTerminated(items[1..], at);
    }
  }

  lemma {:induction false} TerminatedAppend(items: seq<string>, more: seq<string>, at: char)
    ensures Terminated(items + more, at) == Terminated(items, at) + Terminated(more, at)
    decreases |items|
  {
    if items == [] {
      assert items + more == more;
    } else {
      assert (items + more)[1..] == items[1..] + more;
      TerminatedAppend(items[1..], more, at);
    }
  }

  lemma {:induction false} FreeOfTerminated(items: seq<string>, at: char, c: char)
    requires Free(items, c) && c != at
    ensures c !in Terminated(items, at)
    decreases |items|
  {
    if items != [] {
      assert c !in items[0];
      FreeOfTerminated(items[1..], at, c);
    }
  }

  // ---------------------------------------------------------------- lines

  /** One line: a field's name and its values. */
  datatype Record = Record(name: string, values: seq<string>)

  function Map(f: string -> string, s: seq<string>): (r: seq<string>)
    ensures |r| == |s| && forall i :: 0 <= i < |s| ==> r[i] == f(s[i])
  {
    if s == [] then [] else Map(f, s[..|s| - 1]) + [f(s[|s| - 1])]
  }

  function Print(quote: string -> string, record: Record): string {
    record.name + "=" + Terminated(Map(quote, record.values), UNIT)
  }

  function Parse(unquote: string -> string, line: string): Option<Record> {
    match Cut(line, '=')
    case None => None
    case Some((name, rest)) => Some(Record(name, Map(unquote, Items(rest, UNIT))))
  }

  predicate PlainName(name: string) {
    forall i :: 0 <= i < |name| ==> name[i] != '=' && name[i] != NEWLINE
  }

  lemma PrintedValues(quote: string -> string, unquote: string -> string, values: seq<string>)
    requires Quoting(quote, unquote)
    ensures Free(Map(quote, values), UNIT) && Free(Map(quote, values), NEWLINE)
    ensures Map(unquote, Map(quote, values)) == values
  {
    forall i | 0 <= i < |values| ensures Quoted(quote, unquote, values[i]) {
    }
  }

  lemma ParsePrinted(quote: string -> string, unquote: string -> string, record: Record)
    requires Quoting(quote, unquote) && PlainName(record.name)
    ensures Parse(unquote, Print(quote, record)) == Some(record)
    ensures NEWLINE !in Print(quote, record)
  {
    PrintedValues(quote, unquote, record.values);
    var values := Map(quote, record.values);
    CutPrinted(record.name, '=', Terminated(values, UNIT));
    ItemsOfTerminated(values, UNIT);
    FreeOfTerminated(values, UNIT, NEWLINE);
  }

  // ---------------------------------------------------------------- the manifest

  const TRUE := "true"
  const FALSE := "false"
  const SCHEMA := "schema"
  const IMAGE := "base.image"
  const NETWORK := "base.allow_network"
  const PACKAGES := "base.packages"
  const COMMAND := "application.command"
  const WORKDIR := "application.workdir"
  const ENV := "application.env"
  const WRITABLE := "application.writable"
  const SOURCES := "copy.sources"
  const MODULES := "copy.modules"

  function SourceRecords(sources: seq<Source>): (r: seq<Record>)
    ensures |r| == |sources|
    ensures forall i :: 0 <= i < |r| ==> r[i] == Record(SOURCES, [sources[i].from, sources[i].to, sources[i].mode])
  {
    if sources == [] then []
    else
      var last := sources[|sources| - 1];
      SourceRecords(sources[..|sources| - 1]) + [Record(SOURCES, [last.from, last.to, last.mode])]
  }

  /** The fields before the copied sources, in their fixed order. */
  function Leading(m: Manifest): seq<Record> {
    [Record(SCHEMA, [m.schema]), Record(IMAGE, [m.image]), Record(NETWORK, [if m.allowNetwork then TRUE else FALSE]),
     Record(PACKAGES, Sort(m.packages)), Record(COMMAND, m.command), Record(WORKDIR, [m.workdir]),
     Record(ENV, m.env), Record(WRITABLE, m.writable)]
  }

  function Records(m: Manifest): seq<Record> {
    Leading(m) + SourceRecords(m.sources) + [Record(MODULES, m.modules)]
  }

  function PrintAll(quote: string -> string, records: seq<Record>): (lines: seq<string>)
    ensures |lines| == |records| && forall i :: 0 <= i < |records| ==> lines[i] == Print(quote, records[i])
  {
    if records == [] then [] else PrintAll(quote, records[..|records| - 1]) + [Print(quote, records[|records| - 1])]
  }

  /** The bytes the image tag is computed from. */
  function Canonical(quote: string -> string, m: Manifest): string {
    Terminated(PrintAll(quote, Records(m)), NEWLINE)
  }

  // ---------------------------------------------------------------- the decoder

  function ParseAll(unquote: string -> string, lines: seq<string>): Option<seq<Record>> {
    if lines == [] then Some([])
    else
      var init, last := ParseAll(unquote, lines[..|lines| - 1]), Parse(unquote, lines[|lines| - 1]);
      if init.Some? && last.Some? then Some(init.value + [last.value]) else None
  }

  function ToSources(records: seq<Record>): Option<seq<Source>> {
    if records == [] then Some([])
    else
      var init, last := ToSources(records[..|records| - 1]), records[|records| - 1];
      if init.Some? && last.name == SOURCES && |last.values| == 3
      then Some(init.value + [Source(last.values[0], last.values[1], last.values[2])]) else None
  }

  predicate Leads(records: seq<Record>) {
    && |records| >= 9
    && records[0].name == SCHEMA && |records[0].values| == 1
    && records[1].name == IMAGE && |records[1].values| == 1
    && records[2].name == NETWORK && (records[2].values == [TRUE] || records[2].values == [FALSE])
    && records[3].name == PACKAGES && records[4].name == COMMAND
    && records[5].name == WORKDIR && |records[5].values| == 1
    && records[6].name == ENV && records[7].name == WRITABLE
    && records[|records| - 1].name == MODULES
  }

  function FromRecords(records: seq<Record>): Option<Manifest> {
    if !Leads(records) then None
    else
      match ToSources(records[8..|records| - 1])
      case None => None
      case Some(sources) => Some(Manifest(
        records[0].values[0], records[1].values[0], "", records[3].values, records[2].values == [TRUE],
        records[4].values, records[5].values[0], records[6].values, records[7].values,
        sources, records[|records| - 1].values))
  }

  function Decode(unquote: string -> string, text: string): Option<Manifest> {
    match ParseAll(unquote, Items(text, NEWLINE))
    case None => None
    case Some(records) => FromRecords(records)
  }

  /** What the encoding keeps of a manifest: everything but the digest pin and the order of the packages. */
  function Declared(m: Manifest): Manifest {
    m.(digest := "", packages := Sort(m.packages))
  }

  predicate Parses(unquote: string -> string, line: string, record: Record) {
    Parse(unquote, line) == Some(record)
  }

  lemma {:induction false} ParseAllIs(unquote: string -> string, lines: seq<string>, records: seq<Record>)
    requires |lines| == |records| && forall i :: 0 <= i < |lines| ==> Parses(unquote, lines[i], records[i])
    ensures ParseAll(unquote, lines) == Some(records)
  {
    if lines != [] {
      var n := |lines| - 1;
      ParseAllIs(unquote, lines[..n], records[..n]);
      assert Parses(unquote, lines[n], records[n]);
      assert records == records[..n] + [records[n]];
    }
  }

  lemma ParseAllPrinted(quote: string -> string, unquote: string -> string, records: seq<Record>)
    requires Quoting(quote, unquote) && PlainNames(records)
    ensures ParseAll(unquote, PrintAll(quote, records)) == Some(records)
    ensures Free(PrintAll(quote, records), NEWLINE)
  {
    var lines := PrintAll(quote, records);
    forall i | 0 <= i < |lines| ensures Parses(unquote, lines[i], records[i]) && NEWLINE !in lines[i] {
      ParsePrinted(quote, unquote, records[i]);
    }
    ParseAllIs(unquote, lines, records);
  }

  lemma {:induction false} ToSourcesOfRecords(sources: seq<Source>)
    ensures ToSources(SourceRecords(sources)) == Some(sources)
  {
    if sources != [] {
      var n := |sources| - 1;
      var records := SourceRecords(sources);
      assert records[..n] == SourceRecords(sources[..n]);
      ToSourcesOfRecords(sources[..n]);
      assert sources == sources[..n] + [sources[n]];
    }
  }

  lemma LeadsManifest(m: Manifest)
    ensures Leads(Records(m))
    ensures (Records(m)[2].values == [TRUE]) == m.allowNetwork
  {
    assert |TRUE| != |FALSE|;
    assert forall i :: 0 <= i < 8 ==> Records(m)[i] == Leading(m)[i];
    assert Records(m)[2].values[0] == (if m.allowNetwork then TRUE else FALSE);
  }

  lemma FromRecordsOfManifest(m: Manifest)
    ensures FromRecords(Records(m)) == Some(Declared(m))
  {
    var records := Records(m);
    LeadsManifest(m);
    assert records[8..|records| - 1] == SourceRecords(m.sources);
    ToSourcesOfRecords(m.sources);
  }

  ghost predicate PlainNames(records: seq<Record>) {
    forall i :: 0 <= i < |records| ==> PlainName(records[i].name)
  }

  lemma NamesPlain()
    ensures PlainName(SCHEMA) && PlainName(IMAGE) && PlainName(NETWORK) && PlainName(PACKAGES)
    ensures PlainName(COMMAND) && PlainName(WORKDIR) && PlainName(ENV) && PlainName(WRITABLE)
    ensures PlainName(SOURCES) && PlainName(MODULES)
  {
  }

  lemma RecordNamesPlain(m: Manifest)
    ensures PlainNames(Records(m))
  {
    NamesPlain();
    var leading, sources := Leading(m), SourceRecords(m.sources);
    forall i | 0 <= i < |Records(m)| ensures PlainName(Records(m)[i].name) {
      if i < 8 {
        assert Records(m)[i] == leading[i];
      } else if i < 8 + |sources| {
        assert Records(m)[i] == sources[i - 8];
      }
    }
  }

  /** The decoder undoes the printer. */
  lemma DecodeCanonical(quote: string -> string, unquote: string -> string, m: Manifest)
    requires Quoting(quote, unquote)
    ensures Decode(unquote, Canonical(quote, m)) == Some(Declared(m))
  {
    RecordNamesPlain(m);
    ParseAllPrinted(quote, unquote, Records(m));
    ItemsOfTerminated(PrintAll(quote, Records(m)), NEWLINE);
    FromRecordsOfManifest(m);
  }

  /** Two manifests have the same fingerprint input exactly when they declare the same. */
  lemma CanonicalInjective(quote: string -> string, unquote: string -> string, a: Manifest, b: Manifest)
    requires Quoting(quote, unquote)
    ensures Canonical(quote, a) == Canonical(quote, b) <==>
      && a.schema == b.schema && a.image == b.image && a.allowNetwork == b.allowNetwork
      && multiset(a.packages) == multiset(b.packages)
      && a.command == b.command && a.workdir == b.workdir && a.env == b.env && a.writable == b.writable
      && a.sources == b.sources && a.modules == b.modules
  {
    DecodeCanonical(quote, unquote, a);
    DecodeCanonical(quote, unquote, b);
    if Canonical(quote, a) == Canonical(quote, b) {
      assert Declared(a) == Declared(b);
      assert multiset(a.packages) == multiset(Sort(a.packages)) == multiset(b.packages);
    }
    if multiset(a.packages) == multiset(b.packages) {
      OrderedUnique(Sort(a.packages), Sort(b.packages));
    }
  }

  // ---------------------------------------------------------------- the encoder

  /** The encoder's write: one line appended to the builder, value by value. */
  method WriteLine(quote: string -> string, builder: string, name: string, values: seq<string>) returns (r: string)
    ensures r == builder + Print(quote, Record(name, values)) + [NEWLINE]
  {
    r := builder + name + "=";
    ghost var head := r;
    assert head + Terminated(Map(quote, []), UNIT) == head;
    for i := 0 to |values|
      invariant r == head + Terminated(Map(quote, values[..i]), UNIT)
    {
      r := r + quote(values[i]) + [UNIT];
      ValueAppended(quote, head, values, i);
    }
    assert values[..|values|] == values;
    Regroup(builder, name, "=", Terminated(Map(quote, values), UNIT));
    r := r + [NEWLINE];
  }

  lemma ValueAppended(quote: string -> string, head: string, values: seq<string>, i: nat)
    requires i < |values|
    ensures head + Terminated(Map(quote, values[..i]), UNIT) + quote(values[i]) + [UNIT] ==
      head + Terminated(Map(quote, values[..i + 1]), UNIT)
  {
    assert values[..i + 1][..i] == values[..i];
    TerminatedAppend(Map(quote, values[..i]), [quote(values[i])], UNIT);
    assert Terminated([quote(values[i])], UNIT) == quote(values[i]) + [UNIT];
  }

  lemma Regroup(a: string, b: string, c: string, d: string)
    ensures a + b + c + d == a + (b + c + d)
  {
  }

  lemma LineAppended(quote: string -> string, records: seq<Record>, record: Record)
    ensures Terminated(PrintAll(quote, records + [record]), NEWLINE) ==
      Terminated(PrintAll(quote, records), NEWLINE) + Print(quote, record) + [NEWLINE]
  {
    assert (records + [record])[..|records|] == records;
    TerminatedAppend(PrintAll(quote, records), [Print(quote, record)], NEWLINE);
  }

  /** canonical. */
  method Encode(quote: string -> string, m: Manifest) returns (text: string)
    ensures text == Canonical(quote, m)
  {
    ghost var done: seq<Record>;
    text, done := WriteLeading(quote, m);
    for i := 0 to |m.sources|
      invariant Prints(quote, text, done)
      invariant done == Leading(m) + SourceRecords(m.sources[..i])
    {
      text, done := WriteRecord(quote, text, done, SOURCES, [m.sources[i].from, m.sources[i].to, m.sources[i].mode]);
      assert m.sources[..i + 1][..i] == m.sources[..i];
    }
    assert m.sources[..|m.sources|] == m.sources;
    text, done := WriteRecord(quote, text, done, MODULES, m.modules);
  }

  method WriteLeading(quote: string -> string, m: Manifest) returns (text: string, ghost done: seq<Record>)
    ensures done == Leading(m) && Prints(quote, text, done)
  {
    var packages := Sort(m.packages);
    text, done := "", [];
    text, done := WriteRecord(quote, text, done, SCHEMA, [m.schema]);
    text, done := WriteRecord(quote, text, done, IMAGE, [m.image]);
    text, done := WriteRecord(quote, text, done, NETWORK, [if m.allowNetwork then TRUE else FALSE]);
    text, done := WriteRecord(quote, text, done, PACKAGES, packages);
    text, done := WriteRecord(quote, text, done, COMMAND, m.command);
    text, done := WriteRecord(quote, text, done, WORKDIR, [m.workdir]);
    text, done := WriteRecord(quote, text, done, ENV, m.env);
    text, done := WriteRecord(quote, text, done, WRITABLE, m.writable);
  }

  /** The text is these records, one line each. */
  ghost predicate Prints(quote: string -> string, text: string, records: seq<Record>) {
    text == Terminated(PrintAll(quote, records), NEWLINE)
  }

  /** write, keeping account of the records behind the text. */
  method WriteRecord(
      quote: string -> string, builder: string, ghost done: seq<Record>, name: string, values: seq<string>)
    returns (text: string, ghost records: seq<Record>)
    requires Prints(quote, builder, done)
    ensures records == done + [Record(name, values)] && Prints(quote, text, records)
  {
    text := WriteLine(quote, builder, name, values);
    records := done + [Record(name, values)];
    LineAppended(quote, done, Record(name, values));
  }
}
