/** Device identities read off the attribute files, and what each form of input comes to (core/src/resolver.rs). */
module DeviceFiles {
  import opened Basics
  import opened Text
  import opened Resolver
  import Ports

  // ---- Files and fields ----

  /** The file is there and says `text` once trimmed. */
  predicate Says(file: Option<string>, text: string) {
    file.Some? && text != "" && Trim(file.value) == text
  }

  /** The file is missing or holds nothing but whitespace. */
  predicate Silent(file: Option<string>) {
    file.None? || AllWhitespace(file.value)
  }

  /** The file holds no separator of the identity spelling. */
  predicate Spellable(file: Option<string>) {
    file.None? || ':' !in file.value
  }

  /** The files of a device that has a usb identity. */
  predicate Identified(f: UsbFields) {
    && !Silent(f.vid) && !Silent(f.pid)
    && Spellable(f.vid) && Spellable(f.pid) && Spellable(f.serial) && Spellable(f.iface)
  }

  /** The field is what its file says, or the absent marker for a silent file. */
  predicate FromFile(field: string, file: Option<string>) {
    if Silent(file) then field == "-" else Says(file, field)
  }

  lemma StartKeepsSeparator(t: string)
    ensures ':' in t <==> ':' in TrimStart(t)
  {
    var start := TrimStart(t);
    var n := |t| - |start|;
    assert !IsWhitespace(':') && t[n..] == start;
    if ':' in t {
      var i :| 0 <= i < |t| && t[i] == ':';
      assert start[i - n] == ':';
    }
    if ':' in start {
      var i :| 0 <= i < |start| && start[i] == ':';
      assert t[n + i] == ':';
    }
  }

  /** Trimming takes whitespace only, so a separator survives it. */
  lemma TrimKeepsSeparator(t: string)
    ensures ':' in t <==> ':' in Trim(t)
  {
    StartKeepsSeparator(t);
    EndKeepsSeparator(TrimStart(t));
  }

  lemma EndKeepsSeparator(t: string)
    ensures ':' in t <==> ':' in TrimEnd(t)
  {
    assert !IsWhitespace(':');
    if ':' in t {
      var i :| 0 <= i < |t| && t[i] == ':';
      assert TrimEnd(t)[i] == ':';
    }
  }

  /** Reading a field: nothing exactly for a silent file, and otherwise what the file says. */
  lemma FieldIsFile(file: Option<string>)
    ensures ReadField(file).None? <==> Silent(file)
    ensures ReadField(file).Some? ==> Says(file, ReadField(file).value)
    ensures FromFile(OrMarker(ReadField(file)), file)
    ensures ':' in OrMarker(ReadField(file)) <==> !Spellable(file)
  {
    if file.Some? {
      BlankIffAllWhitespace(file.value);
      TrimKeepsSeparator(file.value);
    }
  }

  /** The files behind a tty of the listing. */
  function FilesOf(s: Snapshot, name: string): Option<UsbFields> {
    if name in s.ttys then s.ttys[name] else None
  }

  /**
   * A tty has an identity exactly when vendor and product are there and no file holds a separator, and then
   * each of its four fields is what its own file says; a silent serial or interface file is spelled `-`.
   */
  lemma LookupIff(s: Snapshot, name: string)
    ensures Lookup(s, name).Some? <==> FilesOf(s, name).Some? && Identified(FilesOf(s, name).value)
    ensures Lookup(s, name).Some? ==>
      var u, f := Lookup(s, name).value, FilesOf(s, name).value;
      && Says(f.vid, u.vid) && Says(f.pid, u.pid)
      && FromFile(u.serial, f.serial) && FromFile(u.iface, f.iface)
  {
    if FilesOf(s, name).Some? {
      var f := FilesOf(s, name).value;
      FieldIsFile(f.vid);
      FieldIsFile(f.pid);
      FieldIsFile(f.serial);
      FieldIsFile(f.iface);
    }
  }

  /** The identity is spelled vendor, product, serial, interface, in that order. */
  lemma SpelledInOrder(u: UsbId)
    requires u.Sound()
    ensures u.Spelled()[..4] == "usb:" && SplitOn(u.Spelled()[4..], ':') == [u.vid, u.pid, u.serial, u.iface]
  {
    assert u.Spelled()[4..] == u.Tail();
    TailFields(u);
  }

  // ---- Bare serial numbers ----

  predicate Starts(device: string, prefix: string) {
    |prefix| <= |device| && forall i :: 0 <= i < |prefix| ==> device[i] == prefix[i]
  }

  /** Neither a path nor one of the three spelled identities. */
  predicate Bare(device: string) {
    !Starts(device, "/") && !Starts(device, "usb:") && !Starts(device, "by-path:") && !Starts(device, "raw:")
  }

  lemma StartsIff(device: string, prefix: string)
    ensures Starts(device, prefix) <==> prefix <= device
  {
  }

  /** What a device string is taken for, by its first characters. */
  lemma FormIff(device: string)
    ensures FormOf(device).UsbForm? <==> Starts(device, "usb:")
    ensures FormOf(device).ByPathForm? <==> Starts(device, "by-path:")
    ensures FormOf(device).RawForm? <==> Starts(device, "raw:")
    ensures FormOf(device).PathForm? <==> Starts(device, "/")
    ensures FormOf(device).SerialForm? <==> Bare(device)
  {
    StartsIff(device, "usb:");
    StartsIff(device, "by-path:");
    StartsIff(device, "raw:");
    StartsIff(device, "/");
    assert "usb:"[0] != "by-path:"[0] && "usb:"[0] != "raw:"[0] && "by-path:"[0] != "raw:"[0];
    assert "/"[0] != "usb:"[0] && "/"[0] != "by-path:"[0] && "/"[0] != "raw:"[0];
  }

  /** A present device with an identity whose serial file says `serial`. */
  predicate HasSerial(s: Snapshot, name: string, serial: string) {
    && Present(s, name) && FilesOf(s, name).Some? && Identified(FilesOf(s, name).value)
    && Says(FilesOf(s, name).value.serial, serial)
  }

  lemma CarriersHaveSerial(s: Snapshot, serial: string, name: string)
    requires serial != "-" && serial != ""
    ensures name in WithSerial(s, serial) <==> HasSerial(s, name, serial)
  {
    Ports.SerialCarriers(s, serial, name);
    LookupIff(s, name);
  }

  /** A bare serial number stands for a device exactly when that device, alone, has a serial file that says it. */
  lemma BareSerialIff(s: Snapshot, serial: string, name: string)
    requires Bare(serial) && Trimmed(serial) && serial != "" && serial != "-"
    ensures ResolveCurrentPath(s, serial) == Some(DevPath(name)) <==>
      HasSerial(s, name, serial) && forall n :: HasSerial(s, n, serial) ==> n == name
    ensures ResolveCurrentPath(s, serial) == Some(DevPath(name)) ==>
      ResolveInput(s, serial).Ok? && ResolveInput(s, serial).value.path == Some(DevPath(name))
  {
    FormIff(serial);
    Ports.SerialIsExact(s, serial);
    forall n ensures n in WithSerial(s, serial) <==> HasSerial(s, n, serial) {
      CarriersHaveSerial(s, serial, n);
    }
    AloneIff(WithSerial(s, serial), name);
    PathIsName(s, serial, name);
  }

  lemma AloneIff(names: set<string>, name: string)
    ensures names == {name} <==> name in names && forall n :: n in names ==> n == name
  {
  }

  lemma PathIsName(s: Snapshot, serial: string, name: string)
    requires FormOf(serial) == SerialForm && Trimmed(serial)
    ensures ResolveCurrentPath(s, serial) == Some(DevPath(name)) <==> WithSerial(s, serial) == {name}
  {
    TrimKeepsTrimmed(serial);
    OnlyPath(WithSerial(s, serial), name);
  }

  lemma MapPathIs(found: Option<string>, name: string)
    ensures MapPath(found) == Some(DevPath(name)) <==> found == Some(name)
  {
    if found.Some? {
      assert DevPath(found.value)[1] == found.value && DevPath(name)[1] == name;
    }
  }

  lemma OnlyPath(names: set<string>, name: string)
    ensures MapPath(PickOnly(names)) == Some(DevPath(name)) <==> names == {name}
  {
    MapPathIs(PickOnly(names), name);
  }

  // ---- What each form of input comes to ----

  /** A device string as it is after trimming. */
  predicate Given(device: string) {
    Trimmed(device) && device != ""
  }

  /**
   * A usb identity is refused exactly when it has not four fields or one is blank. Otherwise it is kept as it
   * is, present or not; it is bound to the only present carrier, and several carriers are named in a warning.
   */
  lemma UsbInput(s: Snapshot, device: string, rest: string)
    requires Given(device) && FormOf(device) == UsbForm(rest)
    ensures var r, fields := ResolveInput(s, device), SplitOn(rest, ':');
            && (r == Err(Malformed) <==> |fields| != 4 || exists i :: 0 <= i < |fields| && AllWhitespace(fields[i]))
            && (r.Err? ==> r == Err(Malformed))
            && (r.Ok? ==> r.value.identity == device && r.value.kind == Usb)
            && (r.Ok? ==> forall name :: r.value.path == Some(DevPath(name)) <==> Matches(s, device) == {name})
            && (r.Ok? ==> (r.value.warning.Some? <==> |Matches(s, device)| > 1))
            && (r.Ok? && r.value.warning.Some? ==> r.value.warning == Some(Ambiguous(Matches(s, device))))
  {
    TrimKeepsTrimmed(device);
    BlankFields(SplitOn(rest, ':'));
    FindUsbIsExact(s, device);
    if |Matches(s, device)| > 1 {
      TwoIsNotOne(Matches(s, device));
    }
    forall name ensures MapPath(FindUsb(s, device)) == Some(DevPath(name)) <==> FindUsb(s, device) == Some(name) {
      MapPathIs(FindUsb(s, device), name);
    }
  }

  lemma BlankFields(fields: seq<string>)
    ensures SomeBlank(fields) <==> exists i :: 0 <= i < |fields| && AllWhitespace(fields[i])
  {
    forall i | 0 <= i < |fields| ensures Trim(fields[i]) == "" <==> AllWhitespace(fields[i]) {
      BlankIffAllWhitespace(fields[i]);
    }
  }

  /** A by-path identity is refused exactly when it names no port; it is bound through the port's link to a present node. */
  lemma ByPathInput(s: Snapshot, device: string, port: string)
    requires Given(device) && FormOf(device) == ByPathForm(port)
    ensures var r := ResolveInput(s, device);
            && (r.Err? <==> port == "") && (r.Err? ==> r == Err(Malformed))
            && (r.Ok? ==> r.value.identity == device && r.value.kind == ByPath && r.value.warning == Some(Topology))
            && (r.Ok? ==> r.value.path == ResolveCurrentPath(s, device))
            && (r.Ok? && r.value.path.Some? ==>
                  exists dev :: Link(port, Some(dev)) in s.byPath && Present(s, dev) && r.value.path == Some(DevPath(dev)))
  {
    TrimKeepsTrimmed(device);
    var found := LinkNamed(s.byPath, port);
    if found.Some? && found.value.target.Some? {
      assert Link(port, Some(found.value.target.value)) in s.byPath;
    }
  }

  /** A raw identity is refused exactly when it is empty, climbs out of the root or names a directory; presence is not needed. */
  lemma RawInput(s: Snapshot, device: string, path: string)
    requires Given(device) && FormOf(device) == RawForm(path)
    ensures var r, p := ResolveInput(s, device), Components(path);
            && (r.Err? <==> AllSlashes(path) || ".." in p || p in s.dirs) && (r.Err? ==> r == Err(Malformed))
            && (r.Ok? ==> r.value.identity == device && r.value.kind == Raw && r.value.warning == Some(RawPath))
            && (r.Ok? ==> r.value.path == if p in s.files then Some(p) else None)
  {
    TrimKeepsTrimmed(device);
  }

  /** A literal path captures the node it leads to; it is refused like a raw identity, and an absent node is reported absent. */
  lemma PathInput(s: Snapshot, device: string)
    requires Given(device) && device[0] == '/'
    ensures var r, p := ResolveInput(s, device), Components(device);
            && (r == Err(Malformed) <==> AllSlashes(device) || ".." in p || p in s.dirs)
            && (r == Err(NotPresent) <==> r != Err(Malformed) && (p !in s.files || p == []))
            && (r.Ok? ==> r.value.path == Some(p))
  {
    FormIff(device);
    TrimKeepsTrimmed(device);
  }

  /** Capture prefers a pinning usb identity, then a by-path port that leads to the device, then the path itself. */
  lemma CaptureChain(s: Snapshot, name: string, path: Path, raw: string)
    ensures var r := Capture(s, name, path, raw);
            && r.path == Some(path)
            && (r.kind == Usb <==> Pins(s, name))
            && (r.kind == ByPath <==> !Pins(s, name) && exists port :: Link(port, Some(name)) in s.byPath)
            && (r.kind == Usb ==> r.warning.None? && r.identity == Lookup(s, name).value.Spelled())
            && (r.kind == ByPath ==>
                  r.warning == Some(Topology) && exists port :: Link(port, Some(name)) in s.byPath && r.identity == "by-path:" + port)
            && (r.kind == Raw ==> r.warning == Some(RawPath) && r.identity == "raw:" + raw)
  {
    PortFound(s.byPath, name);
  }

  lemma {:induction false} PortFound(links: seq<Link>, dev: string)
    ensures ByPathOf(links, dev).Some? <==> exists port :: Link(port, Some(dev)) in links
    ensures ByPathOf(links, dev).Some? ==> Link(ByPathOf(links, dev).value, Some(dev)) in links
  {
    if links != [] {
      PortFound(links[1..], dev);
      assert links == [links[0]] + links[1..];
      if links[0].target == Some(dev) {
        assert Link(links[0].name, Some(dev)) in links;
      }
    }
  }
}
