/** Device identities over a snapshot of the device and sysfs trees (core/src/resolver.rs). */
module Resolver {
  import opened Basics
  import opened Text

  /** A path below the device root, by components. */
  type Path = seq<string>

  /** The attribute files of a tty's USB ancestors, unread ones missing. */
  datatype UsbFields = UsbFields(
    vid: Option<string>, pid: Option<string>, serial: Option<string>, iface: Option<string>)

  /** A link and the last component of its target, if the target has one. */
  datatype Link = Link(name: string, target: Option<string>)

  /**
   * What the resolver can see: the tty listing with the USB device behind each tty, the two link trees
   * in the order a directory read yields them, the names under /dev, and what is a file or a directory.
   */
  datatype Snapshot = Snapshot(
    ttys: map<string, Option<UsbFields>>,
    byId: seq<Link>,
    byPath: seq<Link>,
    devNames: set<string>,
    files: set<Path>,
    dirs: set<Path>)

  // ---- The canonical usb identity ----

  datatype UsbId = UsbId(vid: string, pid: string, serial: string, iface: string) {
    function Tail(): string {
      vid + [':'] + (pid + [':'] + (serial + [':'] + iface))
    }

    function Spelled(): string {
      "usb:" + Tail()
    }

    /** Every field survives the `:`-separated spelling and trimming. */
    predicate Sound() {
      SoundField(vid) && SoundField(pid) && SoundField(serial) && SoundField(iface)
    }
  }

  predicate SoundField(f: string) {
    f != "" && Trimmed(f) && ':' !in f
  }

  /** A file's content, trimmed; a blank one counts as absent. */
  function ReadField(f: Option<string>): Option<string> {
    if f.Some? && Trim(f.value) != "" then Some(Trim(f.value)) else None
  }

  function OrMarker(f: Option<string>): string {
    if f.Some? then f.value else "-"
  }

  /** The identity of a USB device: none without a vendor and product, or with a field the spelling cannot carry. */
  function IdentityOf(f: UsbFields): Option<UsbId> {
    match (ReadField(f.vid), ReadField(f.pid))
    case (Some(vid), Some(pid)) =>
      var serial, iface := OrMarker(ReadField(f.serial)), OrMarker(ReadField(f.iface));
      if ':' in vid || ':' in pid || ':' in serial || ':' in iface then None
      else Some(UsbId(vid, pid, serial, iface))
    case _ => None
  }

  function Lookup(s: Snapshot, name: string): Option<UsbId> {
    if name in s.ttys && s.ttys[name].Some? then IdentityOf(s.ttys[name].value) else None
  }

  /** The third field of a spelled usb identity. */
  function SerialField(identity: string): Option<string> {
    if "usb:" <= identity && |SplitOn(identity[4..], ':')| > 2 then Some(SplitOn(identity[4..], ':')[2]) else None
  }

  lemma TrimEndIsTrimmed(t: string)
    requires t == "" || !IsWhitespace(t[0])
    ensures Trimmed(TrimEnd(t))
  {
  }

  lemma TrimIsTrimmed(f: string)
    ensures Trimmed(Trim(f))
  {
    TrimEndIsTrimmed(TrimStart(f));
  }

  lemma FieldIsTrimmed(f: Option<string>)
    ensures OrMarker(ReadField(f)) != "" && Trimmed(OrMarker(ReadField(f)))
  {
    if f.Some? {
      TrimIsTrimmed(f.value);
    }
  }

  lemma LookupIsSound(s: Snapshot, name: string)
    ensures Lookup(s, name).Some? ==> Lookup(s, name).value.Sound()
  {
    if Lookup(s, name).Some? {
      var f := s.ttys[name].value;
      FieldIsTrimmed(f.vid);
      FieldIsTrimmed(f.pid);
      FieldIsTrimmed(f.serial);
      FieldIsTrimmed(f.iface);
    }
  }

  lemma TailFields(u: UsbId)
    requires u.Sound()
    ensures SplitOn(u.Tail(), ':') == [u.vid, u.pid, u.serial, u.iface]
  {
    SplitPeelsFirst(u.vid, ':', u.pid + [':'] + (u.serial + [':'] + u.iface));
    SplitPeelsFirst(u.pid, ':', u.serial + [':'] + u.iface);
    SplitPeelsFirst(u.serial, ':', u.iface);
    SplitWithoutSeparator(u.iface, ':');
  }

  lemma SpelledSerial(u: UsbId)
    requires u.Sound()
    ensures SerialField(u.Spelled()) == Some(u.serial)
  {
    assert u.Spelled()[4..] == u.Tail();
    TailFields(u);
  }

  // ---- Presence and the two link trees ----

  function DevPath(name: string): Path {
    ["dev", name]
  }

  predicate Present(s: Snapshot, name: string) {
    DevPath(name) in s.files
  }

  /** A present device whose sysfs identity is spelled `identity`. */
  predicate Carries(s: Snapshot, name: string, identity: string) {
    name in s.ttys && Present(s, name) && Lookup(s, name).Some? && Lookup(s, name).value.Spelled() == identity
  }

  function Matches(s: Snapshot, identity: string): set<string> {
    set name | name in s.ttys && Carries(s, name, identity)
  }

  /** Present devices whose identity has this serial; the absent marker names none. */
  function WithSerial(s: Snapshot, serial: string): set<string> {
    if serial == "-" then {}
    else set name | name in s.ttys && Present(s, name) && Lookup(s, name).Some? &&
                    SerialField(Lookup(s, name).value.Spelled()) == Some(serial)
  }

  /** The by-id half: the first link, in listing order, to a present device with this identity. */
  function FindById(s: Snapshot, links: seq<Link>, identity: string): Option<string> {
    if links == [] then None
    else if links[0].target.Some? && Carries(s, links[0].target.value, identity) then links[0].target
    else FindById(s, links[1..], identity)
  }

  /** The only member of a set, if it has exactly one. */
  ghost predicate OnlyOne(names: set<string>, r: Option<string>) {
    match r
    case Some(name) => names == {name}
    case None => forall name :: names != {name}
  }

  function PickOnly(names: set<string>): (r: Option<string>)
    ensures OnlyOne(names, r)
  {
    if |names| == 1 then
      SingletonHasElement(names);
      var name :| name in names;
      OneOfAtMostOne(names, name);
      Some(name)
    else None
  }

  lemma SingletonHasElement(names: set<string>)
    requires |names| == 1
    ensures exists name :: name in names
    ensures forall a, b :: a in names && b in names ==> a == b
  {
    var name :| name in names;
    OneOfAtMostOne(names, name);
  }

  /** By-id first, then the device listing; an identity that two devices carry binds neither. */
  function FindUsb(s: Snapshot, identity: string): Option<string> {
    if |Matches(s, identity)| > 1 then None
    else if FindById(s, s.byId, identity).Some? then FindById(s, s.byId, identity)
    else PickOnly(Matches(s, identity))
  }

  lemma {:induction false} FoundByIdCarries(s: Snapshot, links: seq<Link>, identity: string)
    ensures FindById(s, links, identity).Some? ==> Carries(s, FindById(s, links, identity).value, identity)
  {
    if links != [] {
      FoundByIdCarries(s, links[1..], identity);
    }
  }

  /**
   * The by-id tree is only a fast path: whatever it contains, an identity resolves exactly when one
   * present device carries it, and to that device.
   */
  lemma FindUsbIsExact(s: Snapshot, identity: string)
    ensures OnlyOne(Matches(s, identity), FindUsb(s, identity))
  {
    FoundByIdCarries(s, s.byId, identity);
    MatchesAreCarriers(s, identity);
    if |Matches(s, identity)| > 1 {
      TwoIsNotOne(Matches(s, identity));
    } else if FindById(s, s.byId, identity).Some? {
      OneOfAtMostOne(Matches(s, identity), FindById(s, s.byId, identity).value);
    }
  }

  lemma MatchesAreCarriers(s: Snapshot, identity: string)
    ensures forall name :: name in Matches(s, identity) <==> Carries(s, name, identity)
  {
  }

  lemma OneOfAtMostOne(names: set<string>, name: string)
    requires |names| <= 1 && name in names
    ensures names == {name}
  {
    assert |names| == 1 + |names - {name}|;
    assert names == {name} + (names - {name});
  }

  lemma TwoIsNotOne(names: set<string>)
    requires |names| > 1
    ensures forall name :: names != {name}
  {
    forall name ensures names != {name} {
      assert |{name}| == 1;
    }
  }

  /** The first by-path link, in listing order, whose target is this device. */
  function ByPathOf(links: seq<Link>, dev: string): (r: Option<string>)
    ensures r.Some? ==> exists k :: 0 <= k < |links| && links[k] == Link(r.value, Some(dev))
  {
    if links == [] then None
    else if links[0].target == Some(dev) then
      assert links[0] == Link(links[0].name, Some(dev));
      Some(links[0].name)
    else ByPathOf(links[1..], dev)
  }

  function LinkNamed(links: seq<Link>, name: string): (r: Option<Link>)
    ensures r.Some? ==> r.value in links && r.value.name == name
    ensures r.None? ==> forall k :: 0 <= k < |links| ==> links[k].name != name
  {
    if links == [] then None else if links[0].name == name then Some(links[0]) else LinkNamed(links[1..], name)
  }

  function ByPathLookup(s: Snapshot, port: string): Option<string> {
    match LinkNamed(s.byPath, port)
    case Some(Link(_, Some(dev))) => if Present(s, dev) then Some(dev) else None
    case _ => None
  }

  // ---- Literal paths ----

  function Plain(parts: seq<string>): seq<string> {
    if parts == [] then []
    else (if parts[0] == "" || parts[0] == "." then [] else [parts[0]]) + Plain(parts[1..])
  }

  function Components(path: string): Path {
    Plain(SplitOn(path, '/'))
  }

  /** A literal path is refused when it climbs out of the root or names a directory. */
  predicate LegalLiteral(s: Snapshot, path: Path) {
    ".." !in path && path !in s.dirs
  }

  function LiteralDevPath(s: Snapshot, path: string): Option<Path> {
    var p := Components(path);
    if LegalLiteral(s, p) && p in s.files then Some(p) else None
  }

  function JoinPath(path: Path): string {
    if path == [] then "" else "/" + path[0] + JoinPath(path[1..])
  }

  // ---- Capture: the best identity for a present device ----

  datatype Kind = Usb | ByPath | Raw

  datatype Warning = Ambiguous(devices: set<string>) | Topology | RawPath

  datatype Resolved = Resolved(identity: string, path: Option<Path>, kind: Kind, warning: Option<Warning>)

  /** A usb identity that pins this device: it has a serial, and no other present device carries it. */
  predicate Pins(s: Snapshot, name: string) {
    && Lookup(s, name).Some?
    && SerialField(Lookup(s, name).value.Spelled()) != Some("-")
    && |Matches(s, Lookup(s, name).value.Spelled())| <= 1
  }

  function Capture(s: Snapshot, name: string, path: Path, raw: string): Resolved {
    if Pins(s, name) then Resolved(Lookup(s, name).value.Spelled(), Some(path), Usb, None)
    else
      match ByPathOf(s.byPath, name)
      case Some(port) => Resolved("by-path:" + port, Some(path), ByPath, Some(Topology))
      case None => Resolved("raw:" + raw, Some(path), Raw, Some(RawPath))
  }

  // ---- Input to identity, and identity to current path ----

  datatype ResolveError = NotPresent | Malformed

  /** What a trimmed device string is, by its prefix. */
  datatype Form = UsbForm(rest: string) | ByPathForm(port: string) | RawForm(path: string) | PathForm | SerialForm

  function FormOf(device: string): Form {
    if "usb:" <= device then UsbForm(device[4..])
    else if "by-path:" <= device then ByPathForm(device[8..])
    else if "raw:" <= device then RawForm(device[4..])
    else if "/" <= device then PathForm
    else SerialForm
  }

  predicate AllSlashes(path: string) {
    forall i :: 0 <= i < |path| ==> path[i] == '/'
  }

  predicate SomeBlank(fields: seq<string>) {
    exists i :: 0 <= i < |fields| && Trim(fields[i]) == ""
  }

  function MapPath(name: Option<string>): Option<Path> {
    match name
    case Some(n) => Some(DevPath(n))
    case None => None
  }

  function ResolveUsb(s: Snapshot, identity: string, rest: string): Result<Resolved, ResolveError> {
    var fields := SplitOn(rest, ':');
    if |fields| != 4 || SomeBlank(fields) then Err(Malformed)
    else if |Matches(s, identity)| > 1 then Ok(Resolved(identity, None, Usb, Some(Ambiguous(Matches(s, identity)))))
    else Ok(Resolved(identity, MapPath(FindUsb(s, identity)), Usb, None))
  }

  function ResolveRaw(s: Snapshot, identity: string, path: string): Result<Resolved, ResolveError> {
    var p := Components(path);
    if AllSlashes(path) || !LegalLiteral(s, p) then Err(Malformed)
    else Ok(Resolved(identity, if p in s.files then Some(p) else None, Raw, Some(RawPath)))
  }

  /** A path to a node captures that node; only paths free of links are modelled. */
  function CaptureFromPath(s: Snapshot, path: string): Result<Resolved, ResolveError> {
    var p := Components(path);
    if AllSlashes(path) || !LegalLiteral(s, p) then Err(Malformed)
    else if p !in s.files || p == [] then Err(NotPresent)
    else Ok(Capture(s, p[|p| - 1], p, JoinPath(p)))
  }

  function CaptureFromSerial(s: Snapshot, serial: string): Result<Resolved, ResolveError> {
    if |WithSerial(s, serial)| > 1 then Err(Malformed)
    else
      match PickOnly(WithSerial(s, serial))
      case None => Err(NotPresent)
      case Some(name) => Ok(Capture(s, name, DevPath(name), "/dev/" + name))
  }

  function ResolveForm(s: Snapshot, device: string, form: Form): Result<Resolved, ResolveError> {
    match form
    case UsbForm(rest) => ResolveUsb(s, device, rest)
    case ByPathForm(port) =>
      if port == "" then Err(Malformed)
      else Ok(Resolved(device, MapPath(ByPathLookup(s, port)), ByPath, Some(Topology)))
    case RawForm(path) => ResolveRaw(s, device, path)
    case PathForm => CaptureFromPath(s, device)
    case SerialForm => CaptureFromSerial(s, device)
  }

  function ResolveInput(s: Snapshot, input: string): Result<Resolved, ResolveError> {
    var device := Trim(input);
    if device == "" then Err(Malformed) else ResolveForm(s, device, FormOf(device))
  }

  function PathOfForm(s: Snapshot, device: string, form: Form): Option<Path> {
    match form
    case UsbForm(_) => MapPath(FindUsb(s, device))
    case ByPathForm(port) => MapPath(ByPathLookup(s, port))
    case RawForm(path) => LiteralDevPath(s, path)
    case PathForm => LiteralDevPath(s, device)
    case SerialForm => MapPath(PickOnly(WithSerial(s, device)))
  }

  function ResolveCurrentPath(s: Snapshot, stored: string): Option<Path> {
    PathOfForm(s, Trim(stored), FormOf(Trim(stored)))
  }
}
