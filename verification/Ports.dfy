/** Enumeration of bindable ports, and that what it lists resolves back (core/src/resolver.rs). */
module Ports {
  import opened Basics
  import opened Text
  import opened Resolver

  // ---- A consistent snapshot ----

  /** A directory entry's name, with no whitespace around it. */
  predicate SoundName(n: string) {
    n != "" && n != "." && n != ".." && '/' !in n && Trimmed(n)
  }

  ghost predicate Consistent(s: Snapshot) {
    && (forall n :: n in s.ttys || n in s.devNames ==> SoundName(n))
    && (forall k :: 0 <= k < |s.byId| && s.byId[k].target.Some? ==> SoundName(s.byId[k].target.value))
    && (forall k :: 0 <= k < |s.byPath| ==> SoundName(s.byPath[k].name))
    && (forall k :: 0 <= k < |s.byPath| && s.byPath[k].target.Some? ==> SoundName(s.byPath[k].target.value))
    && (forall j, k :: 0 <= j < k < |s.byPath| ==> s.byPath[j].name != s.byPath[k].name)
    && s.files !! s.dirs
  }

  // ---- Spelling and reading back ----

  /** `device` is what it says it is: trimming leaves it alone and its prefix tells `form`. */
  ghost predicate Reads(device: string, form: Form) {
    device != "" && Trim(device) == device && FormOf(device) == form
  }

  lemma UsbForms(tail: string)
    ensures FormOf("usb:" + tail) == UsbForm(tail)
  {
    assert ("usb:" + tail)[4..] == tail;
  }

  lemma ByPathForms(port: string)
    ensures FormOf("by-path:" + port) == ByPathForm(port)
  {
    assert ("by-path:" + port)[8..] == port && ("by-path:" + port)[0] == 'b';
  }

  lemma RawForms(path: string)
    ensures FormOf("raw:" + path) == RawForm(path)
  {
    assert ("raw:" + path)[4..] == path && ("raw:" + path)[0] == 'r';
  }

  lemma FieldsAreNotBlank(u: UsbId)
    requires u.Sound()
    ensures |SplitOn(u.Tail(), ':')| == 4 && !SomeBlank(SplitOn(u.Tail(), ':'))
  {
    TailFields(u);
    SoundFieldsAreNotBlank([u.vid, u.pid, u.serial, u.iface]);
  }

  lemma SoundFieldsAreNotBlank(fields: seq<string>)
    requires forall i :: 0 <= i < |fields| ==> SoundField(fields[i])
    ensures !SomeBlank(fields)
  {
    forall i | 0 <= i < |fields| ensures Trim(fields[i]) != "" {
      TrimKeepsTrimmed(fields[i]);
    }
  }

  lemma TailIsTrimmed(u: UsbId)
    requires u.Sound()
    ensures u.Tail() != "" && Trimmed(u.Tail())
  {
    var t := u.Tail();
    assert t[0] == u.vid[0] && t[|t| - 1] == u.iface[|u.iface| - 1];
  }

  lemma UsbReadsBack(u: UsbId)
    requires u.Sound()
    ensures Reads(u.Spelled(), UsbForm(u.Tail()))
  {
    TailIsTrimmed(u);
    PrefixedIsTrimmed("usb:", u.Tail());
    UsbForms(u.Tail());
  }

  lemma ByPathReadsBack(port: string)
    requires SoundName(port)
    ensures Reads("by-path:" + port, ByPathForm(port))
  {
    PrefixedIsTrimmed("by-path:", port);
    ByPathForms(port);
  }

  lemma RawReadsBack(name: string)
    requires SoundName(name)
    ensures Reads("raw:" + ("/dev/" + name), RawForm("/dev/" + name))
  {
    var path := "/dev/" + name;
    assert path[0] == '/' && path[|path| - 1] == name[|name| - 1];
    PrefixedIsTrimmed("raw:", path);
    RawForms(path);
  }

  lemma DevComponents(name: string)
    requires SoundName(name)
    ensures Components("/dev/" + name) == DevPath(name)
  {
    assert "/dev/" + name == "" + ['/'] + ("dev" + ['/'] + name);
    SplitPeelsFirst("", '/', "dev" + ['/'] + name);
    SplitPeelsFirst("dev", '/', name);
    SplitWithoutSeparator(name, '/');
    assert SplitOn("/dev/" + name, '/') == ["", "dev", name];
    PlainOfThree(name);
  }

  lemma PlainOfThree(name: string)
    requires SoundName(name)
    ensures Plain(["", "dev", name]) == ["dev", name]
  {
    assert ["", "dev", name][1..] == ["dev", name] && ["dev", name][1..] == [name] && [name][1..] == [];
    assert Plain([name]) == [name];
    assert Plain(["dev", name]) == ["dev", name];
  }

  // ---- A captured identity resolves back ----

  /** The identity is accepted unchanged, and in both directions it leads to the device itself. */
  ghost predicate ResolvesTo(s: Snapshot, identity: string, name: string) {
    && ResolveCurrentPath(s, identity) == Some(DevPath(name))
    && ResolveInput(s, identity).Ok?
    && ResolveInput(s, identity).value.identity == identity
    && ResolveInput(s, identity).value.path == Some(DevPath(name))
  }

  lemma ResolvesByForm(s: Snapshot, identity: string, form: Form, name: string)
    requires Reads(identity, form) && PathOfForm(s, identity, form) == Some(DevPath(name))
    requires ResolveForm(s, identity, form).Ok?
    requires ResolveForm(s, identity, form).value.identity == identity
    requires ResolveForm(s, identity, form).value.path == Some(DevPath(name))
    ensures ResolvesTo(s, identity, name)
  {
  }

  /** A pinning identity is carried by its device alone. */
  lemma PinsAlone(s: Snapshot, name: string, u: UsbId)
    requires Present(s, name) && Pins(s, name) && u == Lookup(s, name).value
    ensures Matches(s, u.Spelled()) == {name} && FindUsb(s, u.Spelled()) == Some(name)
  {
    MatchesAreCarriers(s, u.Spelled());
    OneOfAtMostOne(Matches(s, u.Spelled()), name);
    FindUsbIsExact(s, u.Spelled());
  }

  lemma UsbFormResolves(s: Snapshot, identity: string, rest: string, name: string)
    requires |SplitOn(rest, ':')| == 4 && !SomeBlank(SplitOn(rest, ':'))
    requires Matches(s, identity) == {name} && FindUsb(s, identity) == Some(name)
    ensures PathOfForm(s, identity, UsbForm(rest)) == Some(DevPath(name))
    ensures ResolveForm(s, identity, UsbForm(rest)) == Ok(Resolved(identity, Some(DevPath(name)), Usb, None))
  {
  }

  lemma UsbResolvesBack(s: Snapshot, name: string)
    requires Present(s, name) && Pins(s, name)
    ensures ResolvesTo(s, Lookup(s, name).value.Spelled(), name)
  {
    var u := Lookup(s, name).value;
    LookupIsSound(s, name);
    UsbReadsBack(u);
    FieldsAreNotBlank(u);
    PinsAlone(s, name, u);
    UsbFormResolves(s, u.Spelled(), u.Tail(), name);
    ResolvesByForm(s, u.Spelled(), UsbForm(u.Tail()), name);
  }

  lemma ByPathResolvesBack(s: Snapshot, name: string)
    requires Consistent(s) && Present(s, name) && ByPathOf(s.byPath, name).Some?
    ensures ResolvesTo(s, "by-path:" + ByPathOf(s.byPath, name).value, name)
  {
    var port := ByPathOf(s.byPath, name).value;
    PortLeadsBack(s, name);
    ByPathReadsBack(port);
    ResolvesByForm(s, "by-path:" + port, ByPathForm(port), name);
  }

  /** A port found for a device is, by its name, a link to that device. */
  lemma PortLeadsBack(s: Snapshot, name: string)
    requires Consistent(s) && Present(s, name) && ByPathOf(s.byPath, name).Some?
    ensures var port := ByPathOf(s.byPath, name).value;
            SoundName(port) && ByPathLookup(s, port) == Some(name)
  {
    var port := ByPathOf(s.byPath, name).value;
    var k :| 0 <= k < |s.byPath| && s.byPath[k] == Link(port, Some(name));
    var found := LinkNamed(s.byPath, port);
    assert found.Some?;
    var j :| 0 <= j < |s.byPath| && s.byPath[j] == found.value;
    assert j == k;
  }

  lemma RawResolvesBack(s: Snapshot, name: string)
    requires Consistent(s) && SoundName(name) && Present(s, name)
    ensures ResolvesTo(s, "raw:" + ("/dev/" + name), name)
  {
    RawReadsBack(name);
    DevComponents(name);
    NodeIsLegal(s, name);
    ResolvesByForm(s, "raw:" + ("/dev/" + name), RawForm("/dev/" + name), name);
  }

  lemma NodeIsLegal(s: Snapshot, name: string)
    requires Consistent(s) && SoundName(name) && Present(s, name)
    ensures LegalLiteral(s, DevPath(name)) && !AllSlashes("/dev/" + name)
  {
    assert ("/dev/" + name)[1] == 'd';
    assert DevPath(name)[0] == "dev" && DevPath(name)[1] == name;
  }

  /** Whatever the fallback chain mints for a present device leads back to it. */
  lemma CaptureResolvesBack(s: Snapshot, name: string)
    requires Consistent(s) && SoundName(name) && Present(s, name)
    ensures ResolvesTo(s, Capture(s, name, DevPath(name), "/dev/" + name).identity, name)
  {
    if Pins(s, name) {
      UsbResolvesBack(s, name);
    } else if ByPathOf(s.byPath, name).Some? {
      ByPathResolvesBack(s, name);
    } else {
      RawResolvesBack(s, name);
    }
  }

  /** Two devices never get the same identity. */
  lemma CaptureIsInjective(s: Snapshot, a: string, b: string)
    requires Consistent(s) && SoundName(a) && SoundName(b) && Present(s, a) && Present(s, b)
    requires Capture(s, a, DevPath(a), "/dev/" + a).identity == Capture(s, b, DevPath(b), "/dev/" + b).identity
    ensures a == b
  {
    CaptureResolvesBack(s, a);
    CaptureResolvesBack(s, b);
    assert DevPath(a)[1] == DevPath(b)[1];
  }

  /** A usb identity is minted exactly for a device that alone carries it and has a serial number. */
  lemma UsbOnlyWhenItPins(s: Snapshot, name: string)
    requires IsUsbDevice(s, name)
    ensures Capture(s, name, DevPath(name), "/dev/" + name).kind == Usb <==> Pins(s, name)
    ensures var u := Lookup(s, name).value; Pins(s, name) <==> u.serial != "-" && Matches(s, u.Spelled()) == {name}
  {
    var u := Lookup(s, name).value;
    LookupIsSound(s, name);
    SpelledSerial(u);
    AloneIffAtMostOne(s, name, u);
  }

  lemma AloneIffAtMostOne(s: Snapshot, name: string, u: UsbId)
    requires Carries(s, name, u.Spelled())
    ensures |Matches(s, u.Spelled())| <= 1 <==> Matches(s, u.Spelled()) == {name}
  {
    MatchesAreCarriers(s, u.Spelled());
    if |Matches(s, u.Spelled())| <= 1 {
      OneOfAtMostOne(Matches(s, u.Spelled()), name);
    } else {
      TwoIsNotOne(Matches(s, u.Spelled()));
    }
  }

  // ---- Enumeration ----

  datatype Candidate = Candidate(identity: string, kind: Kind, path: Path)

  function CandidateOf(s: Snapshot, name: string): Candidate {
    var r := Capture(s, name, DevPath(name), "/dev/" + name);
    Candidate(r.identity, r.kind, DevPath(name))
  }

  /** The node a by-id link names; a target without a last component leaves the directory's own name. */
  function NamedById(l: Link): string {
    if l.target.Some? then l.target.value else "dev"
  }

  predicate IsUsbDevice(s: Snapshot, name: string) {
    name in s.ttys && Present(s, name) && Lookup(s, name).Some?
  }

  predicate IsCallout(name: string) {
    "cu." <= name
  }

  /** The device names the four sources yield. */
  ghost predicate Seen(s: Snapshot, name: string) {
    || (exists k :: 0 <= k < |s.byId| && s.byId[k].target == Some(name))
    || (name == "dev" && exists k :: 0 <= k < |s.byId| && s.byId[k].target.None?)
    || IsUsbDevice(s, name)
    || (exists k :: 0 <= k < |s.byPath| && s.byPath[k].target == Some(name))
    || (name in s.devNames && IsCallout(name))
  }

  ghost predicate Listed(s: Snapshot, name: string) {
    Seen(s, name) && Present(s, name)
  }

  method SeenById(links: seq<Link>) returns (seen: set<string>)
    ensures forall n :: n in seen <==> exists k :: 0 <= k < |links| && NamedById(links[k]) == n
  {
    seen := {};
    for i := 0 to |links|
      invariant forall n :: n in seen <==> exists k :: 0 <= k < i && NamedById(links[k]) == n
    {
      seen := seen + {NamedById(links[i])};
    }
  }

  method SeenByPath(links: seq<Link>) returns (seen: set<string>)
    ensures forall n :: n in seen <==> exists k :: 0 <= k < |links| && links[k].target == Some(n)
  {
    seen := {};
    for i := 0 to |links|
      invariant forall n :: n in seen <==> exists k :: 0 <= k < i && links[k].target == Some(n)
    {
      if links[i].target.Some? {
        seen := seen + {links[i].target.value};
      }
    }
  }

  /** The device listing: present ttys with a usb identity. */
  method UsbDevices(s: Snapshot) returns (names: set<string>)
    ensures forall n :: n in names <==> IsUsbDevice(s, n)
  {
    names := {};
    var remaining := s.ttys.Keys;
    while remaining != {}
      invariant remaining <= s.ttys.Keys
      invariant forall n :: n in names <==> IsUsbDevice(s, n) && n !in remaining
      decreases remaining
    {
      var name :| name in remaining;
      remaining := remaining - {name};
      if IsUsbDevice(s, name) {
        names := names + {name};
      }
    }
  }

  method Callouts(devNames: set<string>) returns (names: set<string>)
    ensures forall n :: n in names <==> n in devNames && IsCallout(n)
  {
    names := {};
    var remaining := devNames;
    while remaining != {}
      invariant remaining <= devNames
      invariant forall n :: n in names <==> n in devNames && IsCallout(n) && n !in remaining
      decreases remaining
    {
      var name :| name in remaining;
      remaining := remaining - {name};
      if IsCallout(name) {
        names := names + {name};
      }
    }
  }

  method SeenNames(s: Snapshot) returns (seen: set<string>)
    ensures forall n :: n in seen <==> Seen(s, n)
  {
    var byId := SeenById(s.byId);
    var usb := UsbDevices(s);
    var byPath := SeenByPath(s.byPath);
    var callouts := Callouts(s.devNames);
    seen := byId + usb + byPath + callouts;
  }

  /** Strictly before in code point order, which is the order of the names' UTF-8 bytes. */
  predicate Before(a: string, b: string) {
    b != "" && (a == "" || a[0] < b[0] || (a[0] == b[0] && Before(a[1..], b[1..])))
  }

  lemma {:induction false} BeforeIsTotal(a: string, b: string)
    ensures Before(a, b) || a == b || Before(b, a)
  {
    if a != "" && b != "" && a[0] == b[0] {
      BeforeIsTotal(a[1..], b[1..]);
      assert a == [a[0]] + a[1..] && b == [b[0]] + b[1..];
    }
  }

  lemma {:induction false} BeforeIsStrict(a: string)
    ensures !Before(a, a)
  {
    if a != "" {
      BeforeIsStrict(a[1..]);
    }
  }

  lemma {:induction false} BeforeIsTransitive(a: string, b: string, c: string)
    requires Before(a, b) && Before(b, c)
    ensures Before(a, c)
  {
    if a != "" && a[0] == b[0] && b[0] == c[0] {
      BeforeIsTransitive(a[1..], b[1..], c[1..]);
    }
  }

  predicate IsFirst(name: string, names: set<string>) {
    name in names && forall n :: n in names && n != name ==> Before(name, n)
  }

  lemma {:induction false} FirstExists(names: set<string>)
    requires names != {}
    ensures exists name :: IsFirst(name, names)
    decreases |names|
  {
    var x :| x in names;
    var others := names - {x};
    if others == {} {
      assert names == {x};
      assert IsFirst(x, names);
    } else {
      FirstExists(others);
      var y :| IsFirst(y, others);
      BeforeIsTotal(x, y);
      if Before(y, x) {
        assert IsFirst(y, names);
      } else {
        forall n | n in names && n != x ensures Before(x, n) {
          if n != y {
            BeforeIsTransitive(x, y, n);
          }
        }
        assert IsFirst(x, names);
      }
    }
  }

  ghost predicate InOrder(names: seq<string>) {
    forall j, k :: 0 <= j < k < |names| ==> Before(names[j], names[k])
  }

  /** Candidate `k` is the one of device `names[k]`. */
  ghost predicate Enumerates(s: Snapshot, names: seq<string>, out: seq<Candidate>) {
    |names| == |out| && forall k :: 0 <= k < |names| ==> out[k] == CandidateOf(s, names[k])
  }

  /**
   * Every device the four sources yield and that is present, once and in the order of their paths, under
   * the identity binding it would store. In a consistent snapshot each of those identities leads back to
   * its own candidate's path, so no two candidates share one.
   */
  method EnumeratePorts(s: Snapshot) returns (out: seq<Candidate>, ghost names: seq<string>)
    ensures Enumerates(s, names, out) && InOrder(names)
    ensures forall n :: n in names <==> Listed(s, n)
    ensures Consistent(s) ==> forall k :: 0 <= k < |out| ==> LeadsBack(s, out[k])
    ensures Consistent(s) ==> forall j, k :: 0 <= j < k < |out| ==> out[j].identity != out[k].identity
  {
    var remaining := SeenNames(s);
    out, names := [], [];
    while remaining != {}
      invariant Enumerates(s, names, out) && InOrder(names)
      invariant forall k, n :: 0 <= k < |names| && n in remaining ==> Before(names[k], n)
      invariant forall n :: n in remaining ==> Seen(s, n)
      invariant forall n :: n in names ==> Listed(s, n)
      invariant forall n :: Listed(s, n) ==> n in names || n in remaining
      decreases remaining
    {
      FirstExists(remaining);
      var name :| IsFirst(name, remaining);
      remaining := remaining - {name};
      if Present(s, name) {
        out := out + [CandidateOf(s, name)];
        names := names + [name];
      }
    }
    if Consistent(s) {
      EnumerationLeadsBack(s, names, out);
    }
  }

  /** Stored and given back as input, the candidate's identity stands for the candidate's path. */
  ghost predicate LeadsBack(s: Snapshot, c: Candidate) {
    && ResolveCurrentPath(s, c.identity) == Some(c.path)
    && ResolveInput(s, c.identity).Ok?
    && ResolveInput(s, c.identity).value.identity == c.identity
    && ResolveInput(s, c.identity).value.path == Some(c.path)
  }

  lemma SeenIsSound(s: Snapshot, name: string)
    requires Consistent(s) && Seen(s, name)
    ensures SoundName(name)
  {
  }

  lemma CandidateLeadsBack(s: Snapshot, name: string)
    requires Consistent(s) && Listed(s, name)
    ensures LeadsBack(s, CandidateOf(s, name)) && CandidateOf(s, name).path == DevPath(name)
  {
    SeenIsSound(s, name);
    CaptureResolvesBack(s, name);
  }

  lemma EnumerationLeadsBack(s: Snapshot, names: seq<string>, out: seq<Candidate>)
    requires Consistent(s) && Enumerates(s, names, out) && InOrder(names)
    requires forall n :: n in names ==> Listed(s, n)
    ensures forall k :: 0 <= k < |out| ==> LeadsBack(s, out[k])
    ensures forall j, k :: 0 <= j < k < |out| ==> out[j].identity != out[k].identity
  {
    forall k | 0 <= k < |out| ensures LeadsBack(s, out[k]) {
      assert names[k] in names;
      CandidateLeadsBack(s, names[k]);
    }
    forall j, k | 0 <= j < k < |out| ensures out[j].identity != out[k].identity {
      BeforeIsStrict(names[j]);
      SameIdentitySameName(s, names[j], names[k]);
    }
  }

  lemma SameIdentitySameName(s: Snapshot, a: string, b: string)
    requires Consistent(s) && Listed(s, a) && Listed(s, b) && a != b
    ensures CandidateOf(s, a).identity != CandidateOf(s, b).identity
  {
    SeenIsSound(s, a);
    SeenIsSound(s, b);
    if Capture(s, a, DevPath(a), "/dev/" + a).identity == Capture(s, b, DevPath(b), "/dev/" + b).identity {
      CaptureIsInjective(s, a, b);
    }
  }

  // ---- The lookups as loops ----

  /** The by-id scan: skip odd and stale links, stop at the first present carrier. */
  method ScanById(s: Snapshot, identity: string) returns (r: Option<string>)
    ensures r == FindById(s, s.byId, identity)
  {
    for i := 0 to |s.byId|
      invariant FindById(s, s.byId, identity) == FindById(s, s.byId[i..], identity)
    {
      var target := s.byId[i].target;
      assert s.byId[i..][1..] == s.byId[i + 1..];
      if target.Some? && Carries(s, target.value, identity) {
        return target;
      }
    }
    r := None;
  }

  method UsbIdentityMatches(s: Snapshot, identity: string) returns (names: set<string>)
    ensures names == Matches(s, identity)
  {
    var devices := UsbDevices(s);
    names := {};
    var remaining := devices;
    while remaining != {}
      invariant remaining <= devices
      invariant forall n :: n in names <==> n in devices && n !in remaining && Carries(s, n, identity)
      decreases remaining
    {
      var name :| name in remaining;
      remaining := remaining - {name};
      if Carries(s, name, identity) {
        names := names + {name};
      }
    }
    MatchesAreCarriers(s, identity);
  }

  /** Exactly one present carrier, whatever the by-id tree says; otherwise nothing is bound. */
  method ResolveUsbPath(s: Snapshot, identity: string) returns (r: Option<string>)
    ensures OnlyOne(Matches(s, identity), r)
  {
    var carriers := UsbIdentityMatches(s, identity);
    FindUsbIsExact(s, identity);
    if |carriers| > 1 {
      return None;
    }
    r := ScanById(s, identity);
    if r.None? {
      r := PickOnly(carriers);
    }
  }

  // ---- Bare serial numbers ----

  /** A serial number resolves exactly when one present device carries it, and capture agrees. */
  lemma SerialIsExact(s: Snapshot, serial: string)
    requires FormOf(serial) == SerialForm && serial != "" && Trimmed(serial)
    ensures var path := ResolveCurrentPath(s, serial);
            && (path.Some? <==> exists n :: WithSerial(s, serial) == {n})
            && (path.Some? ==> exists n :: WithSerial(s, serial) == {n} && path == Some(DevPath(n)))
            && (ResolveInput(s, serial).Ok? <==> path.Some?)
            && (ResolveInput(s, serial).Ok? ==> ResolveInput(s, serial).value.path == path)
  {
    TrimKeepsTrimmed(serial);
    var only := PickOnly(WithSerial(s, serial));
    if |WithSerial(s, serial)| > 1 {
      TwoIsNotOne(WithSerial(s, serial));
    }
  }

  /** The carriers of a serial number are the present devices whose identity has that serial. */
  lemma SerialCarriers(s: Snapshot, serial: string, name: string)
    ensures name in WithSerial(s, serial) <==>
      serial != "-" && IsUsbDevice(s, name) && Lookup(s, name).value.serial == serial
  {
    LookupIsSound(s, name);
    if Lookup(s, name).Some? {
      SpelledSerial(Lookup(s, name).value);
    }
  }
}
