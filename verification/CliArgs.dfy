/** The flag/value parser of `dscli start` and the token language it accepts. */
module CliArgs {
  import opened Text

  predicate IsFlag(token: string) {
    "--" <= token
  }

  /** One pass over the tokens. `flag` is the pending flag name: "" stands for "none pending",
      which is also the state a bare `--` leaves behind. */
  function Scan(args: seq<string>, flag: string, params: map<string, string>): Result<map<string, string>, string> {
    if args == [] then
      if flag != "" then Err("Param " + flag + " is missing a value") else Ok(params)
    else if IsFlag(args[0]) then
      if flag != "" then Err("Param " + flag + " is missing a value")
      else Scan(args[1..], args[0][2..], params)
    else if flag == "" then Err("No parameter name specified: " + args[0])
    else Scan(args[1..], "", params[flag := args[0]])
  }

  // The accepted language: ( `--`* `--name` value )* `--`*

  datatype Chunk = Chunk(dashes: nat, name: string, value: string) {
    predicate Valid() {
      name != "" && !IsFlag(value)
    }
  }

  datatype Document = Document(chunks: seq<Chunk>, trailing: nat) {
    predicate Valid() {
      forall c :: c in chunks ==> c.Valid()
    }
  }

  function Dashes(n: nat): seq<string> {
    seq(n, _ => "--")
  }

  function Tokens(chunks: seq<Chunk>, trailing: nat): seq<string> {
    if chunks == [] then Dashes(trailing)
    else Dashes(chunks[0].dashes) + ["--" + chunks[0].name, chunks[0].value] + Tokens(chunks[1..], trailing)
  }

  /** The dictionary the chunks spell: a later chunk overwrites an earlier one. */
  function LastWins(chunks: seq<Chunk>): map<string, string> {
    if chunks == [] then map[]
    else map[chunks[0].name := chunks[0].value] + LastWins(chunks[1..])
  }

  ghost predicate Spells(doc: Document, args: seq<string>) {
    doc.Valid() && Tokens(doc.chunks, doc.trailing) == args
  }

  lemma {:induction false} ScanDashes(n: nat, args: seq<string>, params: map<string, string>)
    ensures Scan(Dashes(n) + args, "", params) == Scan(args, "", params)
  {
    if n == 0 {
      assert Dashes(n) + args == args;
    } else {
      ScanDashes(n - 1, args, params);
      assert (Dashes(n) + args)[1..] == Dashes(n - 1) + args;
    }
  }

  lemma ScanChunk(c: Chunk, tail: seq<string>, params: map<string, string>)
    requires c.Valid()
    ensures Scan(["--" + c.name, c.value] + tail, "", params) == Scan(tail, "", params[c.name := c.value])
  {
    var body := ["--" + c.name, c.value] + tail;
    assert body[1..] == [c.value] + tail && body[1..][1..] == tail;
    assert body[0][2..] == c.name;
    assert Scan(body, "", params) == Scan([c.value] + tail, c.name, params);
  }

  /** Every sentence of the language is accepted, with the last-wins dictionary. */
  lemma {:induction false} ScanComplete(chunks: seq<Chunk>, trailing: nat, params: map<string, string>)
    requires forall c :: c in chunks ==> c.Valid()
    ensures Scan(Tokens(chunks, trailing), "", params) == Ok(params + LastWins(chunks))
  {
    if chunks == [] {
      ScanTrailing(trailing, params);
      assert params + LastWins(chunks) == params;
    } else {
      hide Scan, LastWins, IsFlag;
      var c, rest := chunks[0], chunks[1..];
      var tail := Tokens(rest, trailing);
      var body := ["--" + c.name, c.value] + tail;
      assert Tokens(chunks, trailing) == Dashes(c.dashes) + body;
      ScanDashes(c.dashes, body, params);
      assert c in chunks;
      ScanChunk(c, tail, params);
      ScanComplete(rest, trailing, params[c.name := c.value]);
      LastWinsStep(chunks, params);
    }
  }

  lemma ScanTrailing(trailing: nat, params: map<string, string>)
    ensures Scan(Dashes(trailing), "", params) == Ok(params)
  {
    ScanDashes(trailing, [], params);
    assert Dashes(trailing) + [] == Dashes(trailing);
  }

  lemma LastWinsStep(chunks: seq<Chunk>, params: map<string, string>)
    requires chunks != []
    ensures params[chunks[0].name := chunks[0].value] + LastWins(chunks[1..]) == params + LastWins(chunks)
  {
  }

  /** After a sentence, with no value pending, the scan goes on with what follows. */
  lemma {:induction false} ScanGoesOn(chunks: seq<Chunk>, trailing: nat, rest: seq<string>, params: map<string, string>)
    requires forall c :: c in chunks ==> c.Valid()
    ensures Scan(Tokens(chunks, trailing) + rest, "", params) == Scan(rest, "", params + LastWins(chunks))
  {
    if chunks == [] {
      ScanDashes(trailing, rest, params);
      assert params + LastWins(chunks) == params;
    } else {
      hide Scan, LastWins, IsFlag;
      var c, more := chunks[0], chunks[1..];
      var tail := Tokens(more, trailing) + rest;
      var body := ["--" + c.name, c.value] + tail;
      assert Tokens(chunks, trailing) + rest == Dashes(c.dashes) + body;
      ScanDashes(c.dashes, body, params);
      assert c in chunks;
      ScanChunk(c, tail, params);
      ScanGoesOn(more, trailing, rest, params[c.name := c.value]);
      LastWinsStep(chunks, params);
    }
  }

  /** The two ways to fail, each naming its culprit: a value with no name before it, and a name that is
      followed by another flag, or by nothing, in place of its value. */
  lemma ScanFailures(doc: Document, stray: string, name: string, rest: seq<string>)
    requires doc.Valid() && !IsFlag(stray) && name != "" && (rest == [] || IsFlag(rest[0]))
    ensures Scan(Tokens(doc.chunks, doc.trailing) + ([stray] + rest), "", map[]) == Err("No parameter name specified: " + stray)
    ensures Scan(Tokens(doc.chunks, doc.trailing) + (["--" + name] + rest), "", map[]) ==
            Err("Param " + name + " is missing a value")
  {
    hide Tokens, LastWins;
    ScanGoesOn(doc.chunks, doc.trailing, [stray] + rest, map[]);
    ScanGoesOn(doc.chunks, doc.trailing, ["--" + name] + rest, map[]);
    assert (["--" + name] + rest)[1..] == rest && ("--" + name)[2..] == name;
  }

  /** Whatever is accepted is a sentence of the language. */
  lemma {:induction false} ScanSound(args: seq<string>, params: map<string, string>) returns (doc: Document)
    requires Scan(args, "", params).Ok?
    ensures Spells(doc, args)
    decreases |args|
  {
    if args == [] {
      return Document([], 0);
    }
    if args[0] == "--" {
      var d := ScanSound(args[1..], params);
      assert args == ["--"] + args[1..];
      doc := OneMoreDash(d, args[1..]);
    } else {
      var name := args[0][2..];
      assert args[0] == "--" + name;
      var d := ScanSound(args[2..], params[name := args[1]]);
      doc := OneMoreChunk(d, args[2..], name, args[1]);
      assert args == ["--" + name, args[1]] + args[2..];
    }
  }

  lemma DashesMore(n: nat)
    ensures Dashes(n + 1) == ["--"] + Dashes(n)
  {
  }

  lemma OneMoreDash(d: Document, args: seq<string>) returns (doc: Document)
    requires Spells(d, args)
    ensures Spells(doc, ["--"] + args)
  {
    hide Dashes, IsFlag;
    if d.chunks == [] {
      DashesMore(d.trailing);
      doc := Document([], d.trailing + 1);
    } else {
      var c := d.chunks[0];
      DashesMore(c.dashes);
      doc := Document([c.(dashes := c.dashes + 1)] + d.chunks[1..], d.trailing);
      assert doc.chunks[1..] == d.chunks[1..];
      assert c in d.chunks;
    }
  }

  lemma OneMoreChunk(d: Document, args: seq<string>, name: string, value: string) returns (doc: Document)
    requires Spells(d, args) && name != "" && !IsFlag(value)
    ensures Spells(doc, ["--" + name, value] + args)
  {
    hide IsFlag;
    doc := Document([Chunk(0, name, value)] + d.chunks, d.trailing);
    assert doc.chunks[1..] == d.chunks;
    assert Dashes(0) == [];
  }

  /** The parser: accepted exactly when the tokens spell a document, and then the result is that
      document's last-wins dictionary, however the document is chosen. */
  method ParseCliArgs(args: seq<string>) returns (r: Result<map<string, string>, string>)
    ensures r.Ok? <==> exists doc: Document :: Spells(doc, args)
    ensures forall doc: Document :: Spells(doc, args) ==> r == Ok(LastWins(doc.chunks))
    ensures r == Scan(args, "", map[])
  {
    var params: map<string, string> := map[];
    var flag := "";
    var i := 0;
    var failure: Option<string> := None;
    while i < |args| && failure.None?
      invariant 0 <= i <= |args|
      invariant failure.None? ==> Scan(args[i..], flag, params) == Scan(args, "", map[])
      invariant failure.Some? ==> Scan(args, "", map[]) == Err(failure.value)
      decreases |args| - i, failure.None?
    {
      var arg := args[i];
      assert args[i..][1..] == args[i + 1..];
      if IsFlag(arg) {
        if flag != "" {
          failure := Some("Param " + flag + " is missing a value");
        } else {
          flag := arg[2..];
        }
      } else if flag == "" {
        failure := Some("No parameter name specified: " + arg);
      } else {
        params := params[flag := arg];
        flag := "";
      }
      i := i + 1;
    }
    if failure.Some? {
      r := Err(failure.value);
    } else if flag != "" {
      r := Err("Param " + flag + " is missing a value");
    } else {
      r := Ok(params);
    }
    if r.Ok? {
      var doc := ScanSound(args, map[]);
    }
    forall doc: Document | Spells(doc, args) ensures r == Ok(LastWins(doc.chunks)) {
      ScanComplete(doc.chunks, doc.trailing, map[]);
      assert map[] + LastWins(doc.chunks) == LastWins(doc.chunks);
    }
  }

  // ----- printing a dictionary back -----

  /** The chunks are the entries of `m`, in any order, and miss none. */
  ghost predicate Lists(chunks: seq<Chunk>, m: map<string, string>) {
    && (forall c :: c in chunks ==> c.name in m && m[c.name] == c.value)
    && (forall name :: name in m ==> exists c :: c in chunks && c.name == name)
  }

  /** Printing a dictionary as `--name value` tokens and parsing it gives the dictionary back. */
  lemma PrintThenParse(chunks: seq<Chunk>, m: map<string, string>)
    requires Lists(chunks, m)
    requires forall c :: c in chunks ==> c.Valid()
    ensures Scan(Tokens(chunks, 0), "", map[]) == Ok(m)
  {
    hide Scan, Tokens, IsFlag;
    ScanComplete(chunks, 0, map[]);
    SpellsOut(chunks, m);
    assert map[] + LastWins(chunks) == LastWins(chunks);
  }

  lemma SpellsOut(chunks: seq<Chunk>, m: map<string, string>)
    requires Lists(chunks, m)
    ensures LastWins(chunks) == m
  {
    LastWinsOfListing(chunks, m);
  }

  lemma {:induction false} LastWinsOfListing(chunks: seq<Chunk>, m: map<string, string>)
    requires forall c :: c in chunks ==> c.name in m && m[c.name] == c.value
    ensures forall name :: name in LastWins(chunks) <==> exists c :: c in chunks && c.name == name
    ensures forall name :: name in LastWins(chunks) ==> name in m && LastWins(chunks)[name] == m[name]
  {
    if chunks != [] {
      LastWinsOfListing(chunks[1..], m);
      assert chunks[0] in chunks;
      assert forall c :: c in chunks <==> c == chunks[0] || c in chunks[1..];
    }
  }
}
