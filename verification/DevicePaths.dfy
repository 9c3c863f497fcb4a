/** Identities spelled from files, literal paths, and which inputs are refused (core/src/resolver.rs). */
module DevicePaths {
  import opened Basics
  import opened Text
  import opened Resolver
  import opened DeviceFiles
  import Ports

  // ---- Which devices carry an identity ----

  /** What a file tells: its trimmed contents, or the absent marker. */
  function Told(file: Option<string>): string {
    if file.None? || AllWhitespace(file.value) then "-" else Trim(file.value)
  }

  function FilesSpell(f: UsbFields): string {
    "usb:" + (Told(f.vid) + ":" + (Told(f.pid) + ":" + (Told(f.serial) + ":" + Told(f.iface))))
  }

  lemma ToldIsField(field: string, file: Option<string>)
    requires FromFile(field, file)
    ensures field == Told(file)
  {
    if file.Some? {
      BlankIffAllWhitespace(file.value);
    }
  }

  lemma SaidIsTold(field: string, file: Option<string>)
    requires Says(file, field)
    ensures field == Told(file)
  {
    BlankIffAllWhitespace(file.value);
  }

  lemma SpelledFromFiles(s: Snapshot, name: string)
    requires Lookup(s, name).Some?
    ensures FilesOf(s, name).Some? && Lookup(s, name).value.Spelled() == FilesSpell(FilesOf(s, name).value)
  {
    LookupIff(s, name);
    var u, f := Lookup(s, name).value, FilesOf(s, name).value;
    SaidIsTold(u.vid, f.vid);
    SaidIsTold(u.pid, f.pid);
    ToldIsField(u.serial, f.serial);
    ToldIsField(u.iface, f.iface);
  }

  /** The carriers of an identity are the present devices whose files spell it. */
  lemma MatchesIff(s: Snapshot, identity: string, name: string)
    ensures name in Matches(s, identity) <==>
      && Present(s, name) && FilesOf(s, name).Some? && Identified(FilesOf(s, name).value)
      && FilesSpell(FilesOf(s, name).value) == identity
  {
    LookupIff(s, name);
    if Lookup(s, name).Some? {
      SpelledFromFiles(s, name);
    }
  }

  // ---- Literal paths ----

  predicate Proper(part: string) {
    part != "" && part != "." && '/' !in part
  }

  predicate ProperPath(path: Path) {
    forall i :: 0 <= i < |path| ==> Proper(path[i])
  }

  lemma {:induction false} PiecesAreWhole(s: string, c: char)
    ensures forall i :: 0 <= i < |SplitOn(s, c)| ==> c !in SplitOn(s, c)[i]
  {
    if s != "" {
      PiecesAreWhole(s[1..], c);
    }
  }

  lemma {:induction false} PlainFilters(parts: seq<string>, part: string)
    ensures part in Plain(parts) <==> part in parts && part != "" && part != "."
  {
    if parts != [] {
      PlainFilters(parts[1..], part);
      FirstApart(parts);
    }
  }

  /** The components of a path are its pieces between slashes without the empty ones and the dots, so all proper. */
  lemma ComponentsIff(path: string, part: string)
    ensures part in Components(path) <==> part in SplitOn(path, '/') && part != "" && part != "."
    ensures ProperPath(Components(path))
  {
    var p := Components(path);
    PlainFilters(SplitOn(path, '/'), part);
    PiecesAreWhole(path, '/');
    forall i | 0 <= i < |p| ensures Proper(p[i]) {
      PlainFilters(SplitOn(path, '/'), p[i]);
    }
  }

  lemma SlashFirst(text: string)
    ensures Components("/" + text) == Components(text)
  {
    assert ("/" + text)[1..] == text;
    assert ([""] + SplitOn(text, '/'))[1..] == SplitOn(text, '/');
  }

  lemma OneComponent(part: string)
    requires Proper(part)
    ensures Components(part) == [part]
  {
    SplitWithoutSeparator(part, '/');
    assert [part][1..] == [];
    assert Plain([part]) == [part] + Plain([]);
  }

  lemma ComponentThenSlash(part: string, text: string)
    requires Proper(part)
    ensures Components(part + ("/" + text)) == [part] + Components(text)
  {
    Regroup(part, "/", text);
    SplitPeelsFirst(part, '/', text);
    assert ([part] + SplitOn(text, '/'))[1..] == SplitOn(text, '/');
  }

  /** A path written out reads back as itself. */
  lemma {:induction false} JoinReadsBack(path: Path)
    requires ProperPath(path)
    ensures Components(JoinPath(path)) == path
  {
    if path == [] {
      assert Components("") == [];
    } else {
      var first, rest := path[0], path[1..];
      JoinReadsBack(rest);
      FirstApart(path);
      Regroup("/", first, JoinPath(rest));
      SlashFirst(first + JoinPath(rest));
      if rest == [] {
        NothingLast(first);
        OneComponent(first);
      } else {
        var text := rest[0] + JoinPath(rest[1..]);
        Regroup("/", rest[0], JoinPath(rest[1..]));
        SlashFirst(text);
        ComponentThenSlash(first, text);
      }
    }
  }

  /** What a literal path binds: the node it spells, if that is there and is no directory, and the path does not climb. */
  predicate Binds(s: Snapshot, path: string, p: Path) {
    p == Components(path) && ".." !in p && p !in s.dirs && p in s.files
  }

  /** A stored path, bare or spelled raw, resolves exactly to the node it binds. */
  lemma LiteralIff(s: Snapshot, device: string, path: string, p: Path)
    requires Given(device) && ((device[0] == '/' && path == device) || device == "raw:" + path)
    ensures ResolveCurrentPath(s, device) == Some(p) <==> Binds(s, path, p)
  {
    FormIff(device);
    TrimKeepsTrimmed(device);
    if device == "raw:" + path {
      Ports.RawForms(path);
    }
  }

  lemma RawSpelling(s: Snapshot, device: string)
    requires Given(device) && device[0] == '/' && ResolveInput(s, device).Ok? && ResolveInput(s, device).value.kind == Raw
    ensures var p := Components(device); Binds(s, device, p) && ResolveInput(s, device).value.identity == "raw:" + JoinPath(p)
  {
    var p := Components(device);
    FormIff(device);
    TrimKeepsTrimmed(device);
    CaptureChain(s, p[|p| - 1], p, JoinPath(p));
  }

  lemma RawIsGiven(text: string)
    requires text != "" && Trimmed(text)
    ensures Given("raw:" + text)
  {
    var device := "raw:" + text;
    assert device[0] == 'r' && device[|device| - 1] == text[|text| - 1];
  }

  lemma RawReadsBack(s: Snapshot, text: string, p: Path)
    requires text != "" && Trimmed(text) && Binds(s, text, p)
    ensures ResolveCurrentPath(s, "raw:" + text) == Some(p)
  {
    RawIsGiven(text);
    LiteralIff(s, "raw:" + text, text, p);
  }

  /** A path captured as a raw identity leads back to its node, if writing it out ends in no whitespace. */
  lemma RawPathLeadsBack(s: Snapshot, device: string)
    requires Given(device) && device[0] == '/' && ResolveInput(s, device).Ok? && ResolveInput(s, device).value.kind == Raw
    requires Trimmed(JoinPath(Components(device)))
    ensures ResolveCurrentPath(s, ResolveInput(s, device).value.identity) == Some(Components(device))
  {
    RawSpelling(s, device);
    NodeHasName(s, device);
    ComponentsIff(device, "");
    JoinReadsBack(Components(device));
    RawReadsBack(s, JoinPath(Components(device)), Components(device));
  }

  lemma NodeHasName(s: Snapshot, device: string)
    requires Given(device) && device[0] == '/' && ResolveInput(s, device).Ok?
    ensures Components(device) != []
  {
    PathInput(s, device);
  }

  // ---- Refusals ----

  /** Whitespace around an input does not matter, and there is no identity in whitespace. */
  lemma InputIsTrimmed(s: Snapshot, input: string)
    ensures AllWhitespace(input) ==> ResolveInput(s, input) == Err(Malformed)
    ensures ResolveInput(s, Trim(input)) == ResolveInput(s, input)
    ensures ResolveCurrentPath(s, Trim(input)) == ResolveCurrentPath(s, input)
  {
    BlankIffAllWhitespace(input);
    TrimIsTrimmed(input);
    TrimKeepsTrimmed(Trim(input));
  }

  lemma SerialByCount(s: Snapshot, serial: string)
    requires Bare(serial) && Trimmed(serial) && serial != ""
    ensures ResolveInput(s, serial) == Err(NotPresent) <==> |WithSerial(s, serial)| == 0
    ensures ResolveInput(s, serial) == Err(Malformed) <==> |WithSerial(s, serial)| > 1
  {
    FormIff(serial);
    TrimKeepsTrimmed(serial);
  }

  /** A bare serial is ambiguous exactly when two devices have it, and absent exactly when none has. */
  lemma SerialRefusals(s: Snapshot, serial: string)
    requires Bare(serial) && Trimmed(serial) && serial != "" && serial != "-"
    ensures ResolveInput(s, serial) == Err(NotPresent) <==> forall n :: !HasSerial(s, n, serial)
    ensures ResolveInput(s, serial) == Err(Malformed) <==>
      exists m, n :: m != n && HasSerial(s, m, serial) && HasSerial(s, n, serial)
  {
    var names := WithSerial(s, serial);
    SerialByCount(s, serial);
    forall n ensures n in names <==> HasSerial(s, n, serial) {
      CarriersHaveSerial(s, serial, n);
    }
    TwoOrMore(names);
    if exists m, n :: m != n && m in names && n in names {
      var m, n :| m != n && m in names && n in names;
      assert HasSerial(s, m, serial) && HasSerial(s, n, serial);
    }
  }

  lemma TwoOrMore(names: set<string>)
    ensures |names| > 1 <==> exists m, n :: m != n && m in names && n in names
    ensures |names| == 0 <==> forall n :: n !in names
  {
    if names != {} {
      var m :| m in names;
      assert |names| == 1 + |names - {m}|;
      if |names - {m}| > 0 {
        var n :| n in names - {m};
      }
    }
  }
}
