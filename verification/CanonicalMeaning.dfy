/** The fingerprint's input, byte by byte. */
module CanonicalMeaning {
  import opened Protocol
  import opened C = Canonical

  /** Every value quoted and followed by the unit separator. */
  function Quotes(quote: string -> string, values: seq<string>): string {
    if values == [] then "" else quote(values[0]) + "\U{001F}" + Quotes(quote, values[1..])
  }

  /** One line for each field: its name, an equals sign, its values. */
  function Lines(quote: string -> string, fields: seq<(string, seq<string>)>): string {
    if fields == [] then ""
    else fields[0].0 + "=" + Quotes(quote, fields[0].1) + "\n" + Lines(quote, fields[1..])
  }

  lemma {:induction false} QuotesAreTerminated(quote: string -> string, values: seq<string>)
    ensures Terminated(Map(quote, values), UNIT) == Quotes(quote, values)
  {
    if values != [] {
      QuotesAreTerminated(quote, values[1..]);
      assert Map(quote, values)[1..] == Map(quote, values[1..]);
      assert [UNIT] == "\U{001F}";
    }
  }

  lemma {:induction false} LinesAreTerminated(
      quote: string -> string, records: seq<Record>, fields: seq<(string, seq<string>)>)
    requires |records| == |fields|
    requires forall i :: 0 <= i < |fields| ==> records[i] == Record(fields[i].0, fields[i].1)
    ensures Terminated(PrintAll(quote, records), NEWLINE) == Lines(quote, fields)
  {
    if records != [] {
      LinesAreTerminated(quote, records[1..], fields[1..]);
      QuotesAreTerminated(quote, fields[0].1);
      assert PrintAll(quote, records)[1..] == PrintAll(quote, records[1..]);
      assert [NEWLINE] == "\n";
    }
  }

  /** The fields stand in this order under these names; only the packages are sorted. */
  lemma CanonicalInFull(quote: string -> string, m: Manifest)
    ensures C.Canonical(quote, m) == Lines(quote,
      [("schema", [m.schema]), ("base.image", [m.image]),
       ("base.allow_network", [if m.allowNetwork then "true" else "false"]), ("base.packages", Sort(m.packages)),
       ("application.command", m.command), ("application.workdir", [m.workdir]), ("application.env", m.env),
       ("application.writable", m.writable)]
      + seq(|m.sources|, i requires 0 <= i < |m.sources| =>
          ("copy.sources", [m.sources[i].from, m.sources[i].to, m.sources[i].mode]))
      + [("copy.modules", m.modules)])
  {
    var fields: seq<(string, seq<string>)> :=
      [("schema", [m.schema]), ("base.image", [m.image]),
       ("base.allow_network", [if m.allowNetwork then "true" else "false"]), ("base.packages", Sort(m.packages)),
       ("application.command", m.command), ("application.workdir", [m.workdir]), ("application.env", m.env),
       ("application.writable", m.writable)]
      + seq(|m.sources|, i requires 0 <= i < |m.sources| =>
          ("copy.sources", [m.sources[i].from, m.sources[i].to, m.sources[i].mode]))
      + [("copy.modules", m.modules)];
    LinesAreTerminated(quote, Records(m), fields);
  }
}
