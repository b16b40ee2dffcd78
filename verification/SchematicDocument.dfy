/**
 The canonical document of a schematic, whose hash is the schematic's id: the tree it prints, what it
 refuses, and the proof that it can be read back.  The writer is in SchematicWriter.  A string stands for its
 bytes, one character a byte.
 */
module SchematicDocument {
  import opened Octets
  import opened Wrappers
  import opened Decimals
  import opened Utf8
  import opened SchematicYaml

  /** META slots are addressed by one byte. */
  type MetaKey = n: int | 0 <= n < 256

  datatype MetaValue = MetaValue(key: MetaKey, value: string)

  /** Absent parts are empty: the printer leaves out what is zero, save an empty half of a present overlay. */
  datatype Schematic = Schematic(
    owner: string, overlayImage: string, overlayName: string, extraKernelArgs: seq<string>, meta: seq<MetaValue>,
    extensions: seq<string>, wellKnownCertificates: bool)

  /* What is refused. */

  datatype Reason =
    | InvalidUtf8
    | Control(rune: nat)
    | LineSeparator(rune: nat)
    | ByteOrderMark
    | AboveCeiling(rune: nat)

  function RuneReason(r: nat): Option<Reason> {
    if r < 0x20 || 0x7F <= r <= 0x9F then Some(Control(r))
    else if r == 0x2028 || r == 0x2029 then Some(LineSeparator(r))
    else if r == 0xFEFF then Some(ByteOrderMark)
    else if r > 0xFFFD then Some(AboveCeiling(r))
    else None
  }

  /** The reason of the first character that has one. */
  function FirstReason(runes: seq<nat>): Option<Reason> {
    if runes == [] then None else if RuneReason(runes[0]).Some? then RuneReason(runes[0]) else FirstReason(runes[1..])
  }

  function BytesOf(s: string): (b: Bytes)
    ensures |b| == |s|
  {
    seq(|s|, i requires 0 <= i < |s| => if s[i] as int < 256 then s[i] as int else 0xFF)
  }

  /** Why a scalar is not carried; None when it is. */
  function NotRepresentableReason(s: string): Option<Reason> {
    if !ValidUtf8(BytesOf(s)) then Some(InvalidUtf8) else FirstReason(Runes(BytesOf(s)))
  }

  predicate Representable(s: string) { NotRepresentableReason(s).None? }

  lemma {:induction false} FirstReasonNone(runes: seq<nat>)
    ensures FirstReason(runes).None? <==> forall r :: r in runes ==> RuneReason(r).None?
  {
    hide RuneReason;
    if runes != [] {
      FirstReasonNone(runes[1..]);
      assert runes == [runes[0]] + runes[1..];
    }
  }

  /** The characters the Factory writes as they are. */
  predicate Literal(r: nat) {
    0x20 <= r <= 0x7E || 0xA0 <= r <= 0x2027 || 0x202A <= r <= 0xFEFE || 0xFF00 <= r <= 0xFFFD
  }

  /** Representable is exactly valid UTF-8 of such characters. */
  lemma RepresentableExact(s: string)
    ensures Representable(s) <==>
            ValidUtf8(BytesOf(s)) && forall r :: r in Runes(BytesOf(s)) ==> Literal(r)
  {
    if ValidUtf8(BytesOf(s)) {
      FirstReasonNone(Runes(BytesOf(s)));
      forall r: nat
        ensures RuneReason(r).None? <==> Literal(r)
      {
      }
    }
  }

  /** What is representable stands on one line, and has no tab in it. */
  lemma RepresentableKeepsLine(s: string)
    requires Representable(s)
    ensures '\n' !in s && '\t' !in s
  {
    NoControl(s, '\n');
    NoControl(s, '\t');
  }

  lemma NoControl(s: string, c: char)
    requires Representable(s) && c < ' '
    ensures c !in s
  {
    var b: Byte := c as int;
    assert RuneReason(b).Some?;
    FirstReasonNone(Runes(BytesOf(s)));
    assert b !in Runes(BytesOf(s));
    if c in s {
      var i :| 0 <= i < |s| && s[i] == c;
      assert BytesOf(s)[i] == b;
      AsciiStandsAlone(BytesOf(s), b);
    }
  }

  /** Whether the plain form of a scalar would be read as something else than a string: any rule that holds the empty one. */
  type Resolver = string -> bool

  /** The style the upstream emitter would choose. */
  function StyleOf(resolves: Resolver, s: string): Style {
    if resolves(s) then Double else if PlainAllowed(s) then Plain else Single
  }

  function Scalar(resolves: Resolver, s: string): Node {
    Leaf(StyleOf(resolves, s), s)
  }

  lemma NumberIsPlain(n: nat)
    ensures GoodLeaf(Plain, Decimal(n))
  {
    var s := Decimal(n);
    DecimalDigits(n);
    hide Decimal;
    assert forall i :: 0 <= i < |s| ==> s[i] != ':' && s[i] != '#' && s[i] != ' ' && s[i] != '\n';
    assert s[0] !in INDICATORS && s[0] != '-' && s[0] != '?';
    FindColonIs(s, |s|);
  }

  /* The document as a tree. */

  function OwnerFields(resolves: Resolver, s: Schematic): seq<Field> {
    if s.owner == [] then [] else [Field("owner", Scalar(resolves, s.owner))]
  }

  function OverlayFields(resolves: Resolver, s: Schematic): seq<Field> {
    if s.overlayImage == [] && s.overlayName == [] then []
    else [Field("overlay", Map([Field("image", Scalar(resolves, s.overlayImage)),
                                Field("name", Scalar(resolves, s.overlayName))]))]
  }

  function ScalarList(resolves: Resolver, values: seq<string>): (r: seq<Node>)
    ensures |r| == |values| && forall i :: 0 <= i < |values| ==> r[i] == Scalar(resolves, values[i])
  {
    seq(|values|, i requires 0 <= i < |values| => Scalar(resolves, values[i]))
  }

  function MetaNode(resolves: Resolver, m: MetaValue): Node {
    Map([Field("key", Leaf(Plain, Decimal(m.key))), Field("value", Scalar(resolves, m.value))])
  }

  function MetaList(resolves: Resolver, meta: seq<MetaValue>): (r: seq<Node>)
    ensures |r| == |meta| && forall i :: 0 <= i < |meta| ==> r[i] == MetaNode(resolves, meta[i])
  {
    seq(|meta|, i requires 0 <= i < |meta| => MetaNode(resolves, meta[i]))
  }

  function ArgsFields(resolves: Resolver, s: Schematic): seq<Field> {
    if s.extraKernelArgs == [] then [] else [Field("extraKernelArgs", List(ScalarList(resolves, s.extraKernelArgs)))]
  }

  function MetaFields(resolves: Resolver, s: Schematic): seq<Field> {
    if s.meta == [] then [] else [Field("meta", List(MetaList(resolves, s.meta)))]
  }

  function ExtensionFields(resolves: Resolver, s: Schematic): seq<Field> {
    if s.extensions == [] then []
    else [Field("systemExtensions", Map([Field("officialExtensions", List(ScalarList(resolves, s.extensions)))]))]
  }

  function SecureBootFields(s: Schematic): seq<Field> {
    if !s.wellKnownCertificates then []
    else [Field("secureboot", Map([Field("includeWellKnownCertificates", Leaf(Plain, "true"))]))]
  }

  function CustomizationFields(resolves: Resolver, s: Schematic): seq<Field> {
    ArgsFields(resolves, s) + MetaFields(resolves, s) + ExtensionFields(resolves, s) + SecureBootFields(s)
  }

  function Customization(resolves: Resolver, s: Schematic): Field {
    var fields := CustomizationFields(resolves, s);
    Field("customization", if fields == [] then EmptyMap else Map(fields))
  }

  function Fields(resolves: Resolver, s: Schematic): seq<Field> {
    OwnerFields(resolves, s) + OverlayFields(resolves, s) + [Customization(resolves, s)]
  }

  /* Reading a schematic back. */

  function Get(fields: seq<Field>, key: string): Option<Node> {
    if fields == [] then None else if fields[0].key == key then Some(fields[0].value) else Get(fields[1..], key)
  }

  /** A scalar read as a string: a plain one that resolves to something else is not one. */
  function AsString(resolves: Resolver, n: Option<Node>): Option<string> {
    match n
    case None => Some([])
    case Some(Leaf(style, text)) => if style == Plain && resolves(text) then None else Some(text)
    case _ => None
  }

  function AsStrings(resolves: Resolver, items: seq<Node>): Option<seq<string>> {
    if items == [] then Some([])
    else
      var first, more := AsString(resolves, Some(items[0])), AsStrings(resolves, items[1..]);
      if first.None? || more.None? then None else Some([first.value] + more.value)
  }

  function AsList(n: Option<Node>): Option<seq<Node>> {
    match n
    case None => Some([])
    case Some(List(items)) => Some(items)
    case _ => None
  }

  function AsMap(n: Option<Node>): Option<seq<Field>> {
    match n
    case None => Some([])
    case Some(EmptyMap) => Some([])
    case Some(Map(fields)) => Some(fields)
    case _ => None
  }

  function AsMeta(resolves: Resolver, item: Node): Option<MetaValue> {
    match AsMap(Some(item))
    case None => None
    case Some(fields) =>
      var key, value := Get(fields, "key"), AsString(resolves, Get(fields, "value"));
      if key.Some? && key.value.Leaf? && key.value.style == Plain && value.Some? &&
         0 <= DecimalValue(key.value.text) < 256 then
        Some(MetaValue(DecimalValue(key.value.text), value.value))
      else None
  }

  function AsMetas(resolves: Resolver, items: seq<Node>): Option<seq<MetaValue>> {
    if items == [] then Some([])
    else
      var first, more := AsMeta(resolves, items[0]), AsMetas(resolves, items[1..]);
      if first.None? || more.None? then None else Some([first.value] + more.value)
  }

  function AsSchematic(resolves: Resolver, fields: seq<Field>): Option<Schematic> {
    var owner := AsString(resolves, Get(fields, "owner"));
    var overlay, custom := AsMap(Get(fields, "overlay")), AsMap(Get(fields, "customization"));
    if owner.None? || overlay.None? || custom.None? then None
    else
      var image, name := AsString(resolves, Get(overlay.value, "image")), AsString(resolves, Get(overlay.value, "name"));
      var c := AsCustomization(resolves, custom.value);
      if image.None? || name.None? || c.None? then None
      else Some(c.value.(owner := owner.value, overlayImage := image.value, overlayName := name.value))
  }

  function AsCustomization(resolves: Resolver, fields: seq<Field>): Option<Schematic> {
    var args, meta := AsList(Get(fields, "extraKernelArgs")), AsList(Get(fields, "meta"));
    var system, boot := AsMap(Get(fields, "systemExtensions")), AsMap(Get(fields, "secureboot"));
    if args.None? || meta.None? || system.None? || boot.None? then None
    else
      var extensions := AsList(Get(system.value, "officialExtensions"));
      if extensions.None? then None
      else
        var a, m, e := AsStrings(resolves, args.value), AsMetas(resolves, meta.value), AsStrings(resolves, extensions.value);
        if a.None? || m.None? || e.None? then None
        else Some(Schematic([], [], [], a.value, m.value, e.value,
                            Get(boot.value, "includeWellKnownCertificates") == Some(Leaf(Plain, "true"))))
  }

  function ReadSchematic(resolves: Resolver, text: string): Option<Schematic> {
    match ReadDocument(text)
    case None => None
    case Some(fields) => AsSchematic(resolves, fields)
  }

  lemma ScalarReads(resolves: Resolver, s: string)
    ensures AsString(resolves, Some(Scalar(resolves, s))) == Some(s)
  {
  }

  lemma {:induction false} ScalarsRead(resolves: Resolver, values: seq<string>)
    ensures AsStrings(resolves, ScalarList(resolves, values)) == Some(values)
  {
    if values != [] {
      ScalarsRead(resolves, values[1..]);
      assert ScalarList(resolves, values)[1..] == ScalarList(resolves, values[1..]);
      ScalarReads(resolves, values[0]);
      assert [values[0]] + values[1..] == values;
    }
  }

  lemma GetFirst(key: string, value: Node, more: seq<Field>)
    ensures Get([Field(key, value)] + more, key) == Some(value)
  {
  }

  lemma GetNext(key: string, f: Field, more: seq<Field>)
    requires f.key != key
    ensures Get([f] + more, key) == Get(more, key)
  {
    assert ([f] + more)[1..] == more;
  }

  lemma MetaReads(resolves: Resolver, m: MetaValue)
    ensures AsMeta(resolves, MetaNode(resolves, m)) == Some(m)
  {
    hide Scalar, Get, Decimal, DecimalValue;
    DecimalReads(m.key);
    var key, value := Field("key", Leaf(Plain, Decimal(m.key))), Field("value", Scalar(resolves, m.value));
    assert [key, value] == [key] + [value] && [value] == [value] + [];
    GetFirst("key", key.value, [value]);
    GetNext("value", key, [value]);
    GetFirst("value", value.value, []);
    ScalarReads(resolves, m.value);
  }

  lemma {:induction false} MetasRead(resolves: Resolver, meta: seq<MetaValue>)
    ensures AsMetas(resolves, MetaList(resolves, meta)) == Some(meta)
  {
    hide AsMeta, MetaNode;
    if meta != [] {
      MetasRead(resolves, meta[1..]);
      assert MetaList(resolves, meta)[1..] == MetaList(resolves, meta[1..]);
      MetaReads(resolves, meta[0]);
      assert [meta[0]] + meta[1..] == meta;
    }
  }

  lemma {:induction false} GetConcat(a: seq<Field>, b: seq<Field>, key: string)
    ensures Get(a + b, key) == if Get(a, key).Some? then Get(a, key) else Get(b, key)
  {
    if a == [] {
      assert a + b == b;
    } else {
      assert (a + b)[1..] == a[1..] + b;
      GetConcat(a[1..], b, key);
    }
  }

  /** The field of a list of at most one field. */
  lemma GetOnly(fields: seq<Field>, key: string)
    requires |fields| <= 1
    ensures Get(fields, key) == if fields != [] && fields[0].key == key then Some(fields[0].value) else None
  {
    if fields != [] {
      assert fields[1..] == [];
    }
  }

  lemma CustomizationGets(resolves: Resolver, s: Schematic)
    ensures var c := CustomizationFields(resolves, s);
            Get(c, "extraKernelArgs") == Get(ArgsFields(resolves, s), "extraKernelArgs") &&
            Get(c, "meta") == Get(MetaFields(resolves, s), "meta") &&
            Get(c, "systemExtensions") == Get(ExtensionFields(resolves, s), "systemExtensions") &&
            Get(c, "secureboot") == Get(SecureBootFields(s), "secureboot")
  {
    hide Get, ScalarList, MetaList;
    var a, m, e, b := ArgsFields(resolves, s), MetaFields(resolves, s), ExtensionFields(resolves, s), SecureBootFields(s);
    forall key: string
      ensures Get(a + m + e + b, key) ==
              if Get(a, key).Some? then Get(a, key) else if Get(m, key).Some? then Get(m, key)
              else if Get(e, key).Some? then Get(e, key) else Get(b, key)
    {
      GetConcat(a, m, key);
      GetConcat(a + m, e, key);
      GetConcat(a + m + e, b, key);
    }
    GetOnly(a, "meta");
    GetOnly(a, "systemExtensions");
    GetOnly(a, "secureboot");
    GetOnly(a, "extraKernelArgs");
    GetOnly(m, "extraKernelArgs");
    GetOnly(e, "extraKernelArgs");
    GetOnly(b, "extraKernelArgs");
    GetOnly(m, "systemExtensions");
    GetOnly(m, "secureboot");
    GetOnly(e, "meta");
    GetOnly(b, "meta");
    GetOnly(e, "secureboot");
    GetOnly(b, "systemExtensions");
  }

  lemma CustomizationReads(resolves: Resolver, s: Schematic)
    ensures AsCustomization(resolves, CustomizationFields(resolves, s)) ==
            Some(Schematic([], [], [], s.extraKernelArgs, s.meta, s.extensions, s.wellKnownCertificates))
  {
    hide Get, ScalarList, MetaList, CustomizationFields, AsStrings, AsMetas;
    CustomizationGets(resolves, s);
    GetOnly(ArgsFields(resolves, s), "extraKernelArgs");
    GetOnly(MetaFields(resolves, s), "meta");
    GetOnly(ExtensionFields(resolves, s), "systemExtensions");
    GetOnly(SecureBootFields(s), "secureboot");
    GetOnly([], "officialExtensions");
    GetOnly([], "includeWellKnownCertificates");
    GetOnly([Field("officialExtensions", List(ScalarList(resolves, s.extensions)))], "officialExtensions");
    GetOnly([Field("includeWellKnownCertificates", Leaf(Plain, "true"))], "includeWellKnownCertificates");
    ScalarsRead(resolves, s.extraKernelArgs);
    ScalarsRead(resolves, s.extensions);
    MetasRead(resolves, s.meta);
    assert s.extraKernelArgs == [] ==> ScalarList(resolves, s.extraKernelArgs) == [];
    assert s.extensions == [] ==> ScalarList(resolves, s.extensions) == [];
    assert s.meta == [] ==> MetaList(resolves, s.meta) == [];
  }

  lemma TopGets(resolves: Resolver, s: Schematic)
    ensures var f := Fields(resolves, s);
            Get(f, "owner") == Get(OwnerFields(resolves, s), "owner") &&
            Get(f, "overlay") == Get(OverlayFields(resolves, s), "overlay") &&
            Get(f, "customization") == Some(Customization(resolves, s).value)
  {
    hide Get, Scalar, CustomizationFields;
    var o, l, c := OwnerFields(resolves, s), OverlayFields(resolves, s), [Customization(resolves, s)];
    forall key: string
      ensures Get(o + l + c, key) ==
              if Get(o, key).Some? then Get(o, key) else if Get(l, key).Some? then Get(l, key) else Get(c, key)
    {
      GetConcat(o, l, key);
      GetConcat(o + l, c, key);
    }
    GetOnly(o, "owner");
    GetOnly(o, "overlay");
    GetOnly(o, "customization");
    GetOnly(l, "owner");
    GetOnly(l, "customization");
    GetOnly(c, "owner");
    GetOnly(c, "overlay");
    GetOnly(c, "customization");
  }

  lemma OverlayReads(resolves: Resolver, s: Schematic)
    ensures var overlay := AsMap(Get(OverlayFields(resolves, s), "overlay"));
            overlay.Some? &&
            AsString(resolves, Get(overlay.value, "image")) == Some(s.overlayImage) &&
            AsString(resolves, Get(overlay.value, "name")) == Some(s.overlayName)
  {
    hide Get, Scalar;
    GetOnly(OverlayFields(resolves, s), "overlay");
    GetOnly([], "image");
    GetOnly([], "name");
    var image, name := Field("image", Scalar(resolves, s.overlayImage)), Field("name", Scalar(resolves, s.overlayName));
    assert [image, name] == [image] + [name] && [name] == [name] + [];
    GetFirst("image", image.value, [name]);
    GetNext("name", image, [name]);
    GetFirst("name", name.value, []);
    ScalarReads(resolves, s.overlayImage);
    ScalarReads(resolves, s.overlayName);
  }

  /** The tree of a schematic gives the schematic back. */
  lemma TreeReads(resolves: Resolver, s: Schematic)
    ensures AsSchematic(resolves, Fields(resolves, s)) == Some(s)
  {
    hide Get, Scalar, CustomizationFields, AsCustomization, Fields;
    TopGets(resolves, s);
    OverlayReads(resolves, s);
    CustomizationReads(resolves, s);
    hide OverlayFields;
    GetOnly(OwnerFields(resolves, s), "owner");
    ScalarReads(resolves, s.owner);
  }

  /* What is emitted, and in what order. */

  /** A scalar of the document: where it stands, and its position in a sequence or -1. */
  datatype Place = Place(path: string, index: int, value: string)

  function PlacesOf(path: string, values: seq<string>): (r: seq<Place>)
    ensures |r| == |values| && forall i :: 0 <= i < |values| ==> r[i] == Place(path, i, values[i])
  {
    seq(|values|, i requires 0 <= i < |values| => Place(path, i, values[i]))
  }

  function MetaValues(meta: seq<MetaValue>): (r: seq<string>)
    ensures |r| == |meta| && forall i :: 0 <= i < |meta| ==> r[i] == meta[i].value
  {
    seq(|meta|, i requires 0 <= i < |meta| => meta[i].value)
  }

  function OwnerPlaces(s: Schematic): seq<Place> {
    if s.owner == [] then [] else [Place("owner", -1, s.owner)]
  }

  function OverlayPlaces(s: Schematic): seq<Place> {
    if s.overlayImage == [] && s.overlayName == [] then []
    else [Place("overlay.image", -1, s.overlayImage), Place("overlay.name", -1, s.overlayName)]
  }

  /** The scalars of a schematic in document order. */
  function Places(s: Schematic): seq<Place> {
    OwnerPlaces(s) + OverlayPlaces(s) +
    PlacesOf("customization.extraKernelArgs", s.extraKernelArgs) +
    PlacesOf("customization.meta.value", MetaValues(s.meta)) +
    PlacesOf("customization.systemExtensions.officialExtensions", s.extensions)
  }

  datatype NotRepresentable = NotRepresentable(path: string, index: int, reason: Reason)

  function Refusal(p: Place): Option<NotRepresentable> {
    match NotRepresentableReason(p.value)
    case None => None
    case Some(reason) => Some(NotRepresentable(p.path, p.index, reason))
  }

  /** The first scalar that is refused. */
  function FirstRefusal(places: seq<Place>): Option<NotRepresentable> {
    if places == [] then None
    else if FirstRefusal(places[..|places| - 1]).Some? then FirstRefusal(places[..|places| - 1])
    else Refusal(places[|places| - 1])
  }

  /** A refusal names a scalar before which none is refused; there is none exactly when all are representable. */
  lemma {:induction false} FirstRefusalExact(places: seq<Place>)
    ensures FirstRefusal(places).None? <==> forall p :: p in places ==> Representable(p.value)
    ensures FirstRefusal(places).Some? ==>
      exists k :: 0 <= k < |places| && FirstRefusal(places) == Refusal(places[k]) && !Representable(places[k].value) &&
                  forall i :: 0 <= i < k ==> Representable(places[i].value)
  {
    hide NotRepresentableReason;
    if places != [] {
      var n := |places| - 1;
      FirstRefusalExact(places[..n]);
      assert places == places[..n] + [places[n]];
      if FirstRefusal(places[..n]).Some? {
        var k :| 0 <= k < n && FirstRefusal(places[..n]) == Refusal(places[..n][k]) &&
                 !Representable(places[..n][k].value) && forall i :: 0 <= i < k ==> Representable(places[..n][i].value);
        assert places[..n][k] == places[k];
        assert forall i :: 0 <= i < k ==> Representable(places[i].value);
      } else {
        assert forall i :: 0 <= i < n ==> places[i] in places[..n];
        assert FirstRefusal(places).Some? ==> !Representable(places[n].value);
      }
    }
  }

  ghost predicate AllRepresentable(s: Schematic) {
    forall p :: p in Places(s) ==> Representable(p.value)
  }

  /** Scalars left out of the document are empty, so this is every scalar of the schematic. */
  lemma AllScalars(s: Schematic)
    requires AllRepresentable(s)
    ensures s.owner != [] ==> Representable(s.owner)
    ensures s.overlayImage != [] || s.overlayName != [] ==> Representable(s.overlayImage) && Representable(s.overlayName)
    ensures forall i :: 0 <= i < |s.extraKernelArgs| ==> Representable(s.extraKernelArgs[i])
    ensures forall i :: 0 <= i < |s.meta| ==> Representable(s.meta[i].value)
    ensures forall i :: 0 <= i < |s.extensions| ==> Representable(s.extensions[i])
  {
    hide NotRepresentableReason, PlacesOf, MetaValues;
    var a := PlacesOf("customization.extraKernelArgs", s.extraKernelArgs);
    var m := PlacesOf("customization.meta.value", MetaValues(s.meta));
    var e := PlacesOf("customization.systemExtensions.officialExtensions", s.extensions);
    assert s.owner != [] ==> OwnerPlaces(s)[0] in Places(s);
    if s.overlayImage != [] || s.overlayName != [] {
      assert OverlayPlaces(s)[0] in Places(s) && OverlayPlaces(s)[1] in Places(s);
    }
    forall i | 0 <= i < |s.extraKernelArgs|
      ensures Representable(s.extraKernelArgs[i])
    {
      assert a[i] in Places(s);
    }
    forall i | 0 <= i < |s.meta|
      ensures Representable(s.meta[i].value)
    {
      assert m[i] in Places(s);
    }
    forall i | 0 <= i < |s.extensions|
      ensures Representable(s.extensions[i])
    {
      assert e[i] in Places(s);
    }
  }

  /* Round trip. */

  lemma ScalarIsGood(resolves: Resolver, s: string)
    requires Representable(s)
    ensures GoodNode(Scalar(resolves, s))
  {
    hide PlainAllowed, NotRepresentableReason;
    RepresentableKeepsLine(s);
  }

  /* The keys of the document are words. */

  lemma TopKeys()
    ensures GoodKey("owner") && GoodKey("overlay") && GoodKey("customization")
  {
  }

  lemma OverlayKeys()
    ensures GoodKey("image") && GoodKey("name")
  {
  }

  lemma MetaKeys()
    ensures GoodKey("meta") && GoodKey("key") && GoodKey("value")
  {
  }

  lemma ArgsKey()
    ensures GoodKey("extraKernelArgs")
  {
  }

  lemma ExtensionKeys()
    ensures GoodKey("systemExtensions") && GoodKey("officialExtensions")
  {
  }

  lemma SecureBootKey()
    ensures GoodKey("secureboot")
  {
  }

  lemma CertificatesKey()
    ensures GoodKey("includeWellKnownCertificates")
  {
  }

  lemma ListIsGood(items: seq<Node>)
    requires items != [] && forall i :: 0 <= i < |items| ==> (items[i].Leaf? || items[i].Map?) && GoodNode(items[i])
    ensures GoodNode(List(items))
  {
  }

  lemma PairIsGood(f: Field, g: Field)
    requires GoodField(f) && GoodField(g)
    ensures GoodNode(Map([f, g]))
  {
    hide GoodField;
  }

  lemma OneIsGood(f: Field)
    requires GoodField(f)
    ensures GoodNode(Map([f]))
  {
    hide GoodField;
  }

  lemma FieldIsGood(key: string, value: Node)
    requires GoodKey(key) && GoodNode(value)
    ensures GoodField(Field(key, value))
  {
    hide GoodKey, GoodNode;
  }

  lemma ScalarsAreGood(resolves: Resolver, values: seq<string>)
    requires values != [] && forall i :: 0 <= i < |values| ==> Representable(values[i])
    ensures GoodNode(List(ScalarList(resolves, values)))
  {
    hide NotRepresentableReason, GoodNode;
    forall i | 0 <= i < |values|
      ensures GoodNode(Scalar(resolves, values[i]))
    {
      ScalarIsGood(resolves, values[i]);
    }
    ListIsGood(ScalarList(resolves, values));
  }

  lemma MetasAreGood(resolves: Resolver, meta: seq<MetaValue>)
    requires meta != [] && forall i :: 0 <= i < |meta| ==> Representable(meta[i].value)
    ensures GoodNode(List(MetaList(resolves, meta)))
  {
    hide NotRepresentableReason, GoodNode, GoodField, Scalar, GoodKey, Decimal;
    MetaKeys();
    forall i | 0 <= i < |meta|
      ensures GoodNode(MetaNode(resolves, meta[i]))
    {
      ScalarIsGood(resolves, meta[i].value);
      NumberIsPlain(meta[i].key);
      LeafIsGood(Plain, Decimal(meta[i].key));
      FieldIsGood("key", Leaf(Plain, Decimal(meta[i].key)));
      FieldIsGood("value", Scalar(resolves, meta[i].value));
      PairIsGood(Field("key", Leaf(Plain, Decimal(meta[i].key))), Field("value", Scalar(resolves, meta[i].value)));
    }
    ListIsGood(MetaList(resolves, meta));
  }

  lemma LeafIsGood(style: Style, text: string)
    requires GoodLeaf(style, text)
    ensures GoodNode(Leaf(style, text))
  {
    hide GoodLeaf;
  }

  ghost predicate GoodFields(fields: seq<Field>) {
    forall f :: f in fields ==> GoodField(f)
  }

  lemma CustomizationIsGood(resolves: Resolver, s: Schematic)
    requires AllRepresentable(s)
    ensures GoodFields(CustomizationFields(resolves, s))
  {
    hide GoodKey;
    AllScalars(s);
    ArgsKey();
    MetaKeys();
    ExtensionKeys();
    hide NotRepresentableReason, GoodNode, GoodField, ScalarList, MetaList, AllRepresentable;
    if s.extraKernelArgs != [] {
      ScalarsAreGood(resolves, s.extraKernelArgs);
      FieldIsGood("extraKernelArgs", List(ScalarList(resolves, s.extraKernelArgs)));
    }
    if s.meta != [] {
      MetasAreGood(resolves, s.meta);
      FieldIsGood("meta", List(MetaList(resolves, s.meta)));
    }
    if s.extensions != [] {
      var f := Field("officialExtensions", List(ScalarList(resolves, s.extensions)));
      ScalarsAreGood(resolves, s.extensions);
      FieldIsGood(f.key, f.value);
      OneIsGood(f);
      FieldIsGood("systemExtensions", Map([f]));
    }
    TrueIsGood();
  }

  lemma TrueIsPlain()
    ensures GoodLeaf(Plain, "true")
  {
    FindColonIs("true", 4);
  }

  lemma TrueIsGood()
    ensures GoodField(Field("secureboot", Map([Field("includeWellKnownCertificates", Leaf(Plain, "true"))])))
  {
    hide GoodKey, GoodLeaf, GoodNode, GoodField;
    SecureBootKey();
    CertificatesKey();
    TrueIsPlain();
    LeafIsGood(Plain, "true");
    FieldIsGood("includeWellKnownCertificates", Leaf(Plain, "true"));
    OneIsGood(Field("includeWellKnownCertificates", Leaf(Plain, "true")));
    FieldIsGood("secureboot", Map([Field("includeWellKnownCertificates", Leaf(Plain, "true"))]));
  }

  lemma FieldsAreGood(resolves: Resolver, s: Schematic)
    requires AllRepresentable(s)
    ensures GoodFields(Fields(resolves, s))
  {
    hide GoodKey;
    AllScalars(s);
    CustomizationIsGood(resolves, s);
    TopKeys();
    OverlayKeys();
    assert GoodNode(EmptyMap);
    var c := CustomizationFields(resolves, s);
    assert c != [] ==> GoodNode(Map(c));
    hide NotRepresentableReason, GoodNode, GoodField, Scalar, CustomizationFields, AllRepresentable;
    if s.owner != [] {
      ScalarIsGood(resolves, s.owner);
      FieldIsGood("owner", Scalar(resolves, s.owner));
    }
    if s.overlayImage != [] || s.overlayName != [] {
      ScalarIsGood(resolves, s.overlayImage);
      ScalarIsGood(resolves, s.overlayName);
      FieldIsGood("image", Scalar(resolves, s.overlayImage));
      FieldIsGood("name", Scalar(resolves, s.overlayName));
      PairIsGood(Field("image", Scalar(resolves, s.overlayImage)), Field("name", Scalar(resolves, s.overlayName)));
      FieldIsGood("overlay", Map([Field("image", Scalar(resolves, s.overlayImage)), Field("name", Scalar(resolves, s.overlayName))]));
    }
    FieldIsGood("customization", Customization(resolves, s).value);
  }

  /** A schematic whose scalars are all representable is read back from its document as it was. */
  lemma SchematicRoundTrip(resolves: Resolver, s: Schematic)
    requires AllRepresentable(s)
    ensures ReadSchematic(resolves, Document(Fields(resolves, s))) == Some(s)
  {
    hide AllRepresentable, Fields, Document, ReadDocument, AsSchematic, GoodField;
    FieldsAreGood(resolves, s);
    DocumentRoundTrip(Fields(resolves, s));
    TreeReads(resolves, s);
  }

  /** Two schematics with one document are one schematic, so a collision-free hash gives them different ids. */
  lemma CanonicalTells(resolves: Resolver, s: Schematic, t: Schematic)
    requires AllRepresentable(s) && AllRepresentable(t)
    requires Document(Fields(resolves, s)) == Document(Fields(resolves, t))
    ensures s == t
  {
    hide AllRepresentable, Fields, Document, ReadSchematic;
    SchematicRoundTrip(resolves, s);
    SchematicRoundTrip(resolves, t);
  }
}
