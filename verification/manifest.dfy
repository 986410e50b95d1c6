/** The rollout manifest of modules/repo_auto_update/manifest.py: which JSON documents are
    accepted, and what the updater then relies on.
 */
module RolloutManifest {
  import opened Options

  /** JSON values as Python sees them; `Float` only tells whether the value equals 1. */
  datatype Json = Null | Bool(b: bool) | Int(n: int) | Float(isOne: bool) | Str(s: string) | Compound

  datatype Document = NotAnObject | Object(fields: map<string, Json>)

  datatype Manifest = Manifest(enabled: bool, target: string, sequence: nat, allowRollback: bool)

  function Get(fields: map<string, Json>, name: string): Json {
    if name in fields then fields[name] else Null
  }

  /** Python's `value == 1`, which holds of True and 1.0 as well. */
  predicate EqualsOne(v: Json) {
    v == Int(1) || v == Bool(true) || v == Float(true)
  }

  predicate IsHex(c: char) {
    '0' <= c <= '9' || 'a' <= c <= 'f'
  }

  /** `[0-9a-f]{40,64}` */
  predicate IsCommitId(s: string) {
    40 <= |s| <= 64 && forall i :: 0 <= i < |s| ==> IsHex(s[i])
  }

  function Parse(doc: Document): (r: Option<Manifest>)
    ensures r.Some? ==> (r.value.target == "" || IsCommitId(r.value.target))
    ensures r.Some? && r.value.enabled && r.value.target != "" ==> r.value.sequence > 0
  {
    if doc.NotAnObject? || !EqualsOne(Get(doc.fields, "schema")) then None else
      var enabled := Get(doc.fields, "enabled");
      var target := Get(doc.fields, "target");
      var sequence := Get(doc.fields, "sequence");
      var allowRollback := Get(doc.fields, "allow_rollback");
      if !enabled.Bool? then None
      else if !target.Str? then None
      else if Get(doc.fields, "activation") != Str("next-restart") then None
      else if !sequence.Int? || sequence.n < 0 then None
      else if !allowRollback.Bool? then None
      else if target.s != "" && !IsCommitId(target.s) then None
      else if enabled.b && target.s != "" && sequence.n == 0 then None
      else Some(Manifest(enabled.b, target.s, sequence.n, allowRollback.b))
  }

  // ---------------------------------------------------------------- which documents say what

  /** A manifest that may be written down. */
  ghost predicate WellFormed(m: Manifest) {
    && (m.target == "" || 40 <= |m.target| <= 64)
    && (forall i :: 0 <= i < |m.target| ==> '0' <= m.target[i] <= '9' || 'a' <= m.target[i] <= 'f')
    && (m.enabled && m.target != "" ==> m.sequence > 0)
  }

  /** The fields of a manifest as its author writes them. */
  function Fields(m: Manifest): map<string, Json> {
    map["schema" := Int(1), "enabled" := Bool(m.enabled), "target" := Str(m.target),
        "activation" := Str("next-restart"), "sequence" := Int(m.sequence),
        "allow_rollback" := Bool(m.allowRollback)]
  }

  /** The document says what the manifest says; other fields do not matter. */
  ghost predicate Says(fields: map<string, Json>, m: Manifest) {
    && (Get(fields, "schema") == Int(1) || Get(fields, "schema") == Bool(true) || Get(fields, "schema") == Float(true))
    && forall name :: name in Fields(m) && name != "schema" ==> Get(fields, name) == Fields(m)[name]
  }

  /** The parser accepts exactly the documents that spell out a well-formed manifest, and
      returns that manifest. */
  lemma ParsedIffSaid(fields: map<string, Json>, m: Manifest)
    ensures Parse(Object(fields)) == Some(m) <==> WellFormed(m) && Says(fields, m)
  {
    var f := Fields(m);
    assert f.Keys == {"schema", "enabled", "target", "activation", "sequence", "allow_rollback"};
    if Says(fields, m) {
      assert Get(fields, "enabled") == f["enabled"] && Get(fields, "target") == f["target"];
      assert Get(fields, "activation") == f["activation"] && Get(fields, "sequence") == f["sequence"];
      assert Get(fields, "allow_rollback") == f["allow_rollback"];
    }
  }

  // ---------------------------------------------------------------- from the parser to the updater

  function Digit(d: nat): char
    requires d < 10
  {
    '0' + d as char
  }

  /** `print(sequence)` */
  function Decimal(n: nat): (s: string)
    ensures s != "" && forall i :: 0 <= i < |s| ==> '0' <= s[i] <= '9'
  {
    if n < 10 then [Digit(n)] else Decimal(n / 10) + [Digit(n % 10)]
  }

  /** The value of a decimal number in bash arithmetic; a leading zero would make it octal. */
  function ReadDecimal(s: string): Option<nat>
    decreases |s|
  {
    if s == "" || !('0' <= s[|s| - 1] <= '9') then None
    else if |s| == 1 then Some((s[0] - '0') as nat)
    else
      match ReadDecimal(s[..|s| - 1])
      case None => None
      case Some(high) => Some(high * 10 + (s[|s| - 1] - '0') as nat)
  }

  function Flag(b: bool): string {
    if b then "true" else "false"
  }

  /** The standard output of the parser: five lines. */
  function Output(m: Manifest): string {
    Unlines([Flag(m.enabled), m.target, "next-restart", Decimal(m.sequence), Flag(m.allowRollback)])
  }

  function Unlines(lines: seq<string>): string {
    if lines == [] then "" else lines[0] + "\n" + Unlines(lines[1..])
  }

  /** `mapfile -t` */
  function MapFile(text: string): seq<string> {
    if text == "" then []
    else if text[0] == '\n' then [""] + MapFile(text[1..])
    else
      var rest := MapFile(text[1..]);
      if rest == [] then [[text[0]]] else [[text[0]] + rest[0]] + rest[1..]
  }

  /** What the updater takes from the five lines. */
  function ReadRollout(rollout: seq<string>): Option<Manifest> {
    if |rollout| != 5 || ReadDecimal(rollout[3]).None? then None
    else Some(Manifest(rollout[0] == "true", rollout[1], ReadDecimal(rollout[3]).value, rollout[4] == "true"))
  }

  lemma {:induction false} DecimalBack(n: nat)
    ensures ReadDecimal(Decimal(n)) == Some(n)
    ensures Decimal(n)[0] == '0' ==> n == 0
  {
    if n >= 10 {
      DecimalBack(n / 10);
      var s := Decimal(n);
      assert s[..|s| - 1] == Decimal(n / 10) && s[|s| - 1] == Digit(n % 10);
    }
  }

  lemma {:induction false} OneLine(line: string, rest: string)
    requires '\n' !in line
    ensures MapFile(line + "\n" + rest) == [line] + MapFile(rest)
  {
    var text := line + "\n" + rest;
    if line == "" {
      assert text[1..] == rest;
    } else {
      assert line[0] in line && text[0] == line[0];
      OneLine(line[1..], rest);
      assert text[1..] == line[1..] + "\n" + rest;
      assert MapFile(text[1..])[1..] == MapFile(rest);
      assert [line[0]] + line[1..] == line;
    }
  }

  lemma {:induction false} LinesBack(lines: seq<string>)
    requires forall i :: 0 <= i < |lines| ==> '\n' !in lines[i]
    ensures MapFile(Unlines(lines)) == lines
  {
    if lines != [] {
      OneLine(lines[0], Unlines(lines[1..]));
      LinesBack(lines[1..]);
    }
  }

  /** The updater reads from the parser's output exactly the manifest that was parsed; its
      sequence is never written with a leading zero, which bash would read as octal. */
  lemma UpdaterReadsBack(m: Manifest)
    requires WellFormed(m)
    ensures ReadRollout(MapFile(Output(m))) == Some(m)
    ensures Decimal(m.sequence)[0] == '0' ==> m.sequence == 0
  {
    DecimalBack(m.sequence);
    LinesBack([Flag(m.enabled), m.target, "next-restart", Decimal(m.sequence), Flag(m.allowRollback)]);
  }
}
