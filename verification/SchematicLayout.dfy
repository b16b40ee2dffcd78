/**
 The canonical document line by line: which keys, in which order, how far in, and in which style.  This is the
 text whose hash is the id, so nothing of it may be otherwise.
 */
module SchematicLayout {
  import opened Wrappers
  import opened Decimals
  import opened SchematicYaml
  import opened SchematicDocument
  import opened SchematicWriter

  /** Double-quoted when the plain form would be read as something else, plain where that is allowed, else single-quoted. */
  function Styled(resolves: Resolver, s: string): string {
    if resolves(s) then "\"" + EscapeDouble(s) + "\""
    else if PlainAllowed(s) then s
    else "'" + EscapeSingle(s) + "'"
  }

  function ItemLines(resolves: Resolver, indent: nat, values: seq<string>): seq<Line> {
    seq(|values|, i requires 0 <= i < |values| => Line(indent, "- " + Styled(resolves, values[i])))
  }

  /** Each entry of the META partition is two lines: its key behind the dash, its value two columns past it. */
  function MetaItemLines(resolves: Resolver, meta: seq<MetaValue>): seq<Line> {
    if meta == [] then []
    else
      var m := meta[0];
      [Line(8, "- key: " + Decimal(m.key)), Line(10, "value: " + Styled(resolves, m.value))] +
      MetaItemLines(resolves, meta[1..])
  }

  function OwnerLayout(resolves: Resolver, s: Schematic): seq<Line> {
    if s.owner == "" then [] else [Line(0, "owner: " + Styled(resolves, s.owner))]
  }

  /** Both halves of an overlay are written as soon as it has one. */
  function OverlayLayout(resolves: Resolver, s: Schematic): seq<Line> {
    if s.overlayImage == "" && s.overlayName == "" then []
    else [Line(0, "overlay:"), Line(4, "image: " + Styled(resolves, s.overlayImage)),
          Line(4, "name: " + Styled(resolves, s.overlayName))]
  }

  function ArgsLayout(resolves: Resolver, s: Schematic): seq<Line> {
    if s.extraKernelArgs == [] then []
    else [Line(4, "extraKernelArgs:")] + ItemLines(resolves, 8, s.extraKernelArgs)
  }

  function MetaLayout(resolves: Resolver, s: Schematic): seq<Line> {
    if s.meta == [] then [] else [Line(4, "meta:")] + MetaItemLines(resolves, s.meta)
  }

  function ExtensionsLayout(resolves: Resolver, s: Schematic): seq<Line> {
    if s.extensions == [] then []
    else [Line(4, "systemExtensions:"), Line(8, "officialExtensions:")] + ItemLines(resolves, 12, s.extensions)
  }

  function SecureBootLayout(s: Schematic): seq<Line> {
    if !s.wellKnownCertificates then []
    else [Line(4, "secureboot:"), Line(8, "includeWellKnownCertificates: true")]
  }

  /** The customization is always there, as `{}` when nothing is customized. */
  function CustomizationLayout(resolves: Resolver, s: Schematic): seq<Line> {
    if s.extraKernelArgs == [] && s.meta == [] && s.extensions == [] && !s.wellKnownCertificates
    then [Line(0, "customization: {}")]
    else [Line(0, "customization:")] + ArgsLayout(resolves, s) + MetaLayout(resolves, s) +
         ExtensionsLayout(resolves, s) + SecureBootLayout(s)
  }

  function Layout(resolves: Resolver, s: Schematic): seq<Line> {
    OwnerLayout(resolves, s) + OverlayLayout(resolves, s) + CustomizationLayout(resolves, s)
  }

  /** A double-quoted scalar puts a backslash before a backslash and a double quote; a single-quoted one doubles the quote. */
  lemma QuotedLetters(c: char, rest: string)
    ensures EscapeDouble("") == "" && EscapeSingle("") == ""
    ensures EscapeDouble([c] + rest) == (if c in "\"\\" then "\\" + [c] else [c]) + EscapeDouble(rest)
    ensures EscapeSingle([c] + rest) == (if c == '\'' then "\'\'" else [c]) + EscapeSingle(rest)
  {
    assert ([c] + rest)[1..] == rest;
    assert "\\" + [c] == ['\\', c];
    assert c in "\"\\" <==> c == '"' || c == '\\';
  }

  /** A line is its spaces, its text and a line feed. */
  lemma TextOfLine(indent: nat, text: string, rest: seq<Line>)
    ensures Text([]) == ""
    ensures Text([Line(indent, text)] + rest) == seq(indent, i => ' ') + text + "\n" + Text(rest)
  {
    assert ([Line(indent, text)] + rest)[1..] == rest;
  }

  lemma StyledIs(resolves: Resolver, s: string)
    ensures Show(StyleOf(resolves, s), s) == Styled(resolves, s)
  {
    hide EscapeDouble, EscapeSingle, PlainAllowed;
  }

  lemma ScalarField(resolves: Resolver, key: string, value: string, indent: nat)
    ensures PrintField(key, Scalar(resolves, value), indent) == [Line(indent, key + ": " + Styled(resolves, value))]
  {
    hide StyleOf, Styled, Show;
    StyledIs(resolves, value);
  }

  lemma {:induction false} ItemsAre(resolves: Resolver, indent: nat, values: seq<string>)
    ensures PrintList(ScalarList(resolves, values), indent) == ItemLines(resolves, indent, values)
  {
    hide StyleOf, Styled, Show;
    if values != [] {
      StyledIs(resolves, values[0]);
      ItemsAre(resolves, indent, values[1..]);
      assert ScalarList(resolves, values)[1..] == ScalarList(resolves, values[1..]);
      assert ItemLines(resolves, indent, values) == [ItemLines(resolves, indent, values)[0]] + ItemLines(resolves, indent, values[1..]);
    }
  }

  lemma {:induction false} MetaItemsAre(resolves: Resolver, meta: seq<MetaValue>)
    ensures PrintList(MetaList(resolves, meta), 8) == MetaItemLines(resolves, meta)
  {
    hide PrintItem, MetaNode, Styled, Decimal;
    if meta != [] {
      MetaLines(resolves, meta[0]);
      hide PrintField;
      ScalarField(resolves, "value", meta[0].value, 10);
      MetaItemsAre(resolves, meta[1..]);
      assert MetaList(resolves, meta)[1..] == MetaList(resolves, meta[1..]);
      assert "value" + ": " == "value: " && CANONICAL_INDENT == 4;
      assert PrintItem(MetaNode(resolves, meta[0]), 8) ==
             [Line(8, "- key: " + Decimal(meta[0].key))] + [Line(10, "value: " + Styled(resolves, meta[0].value))];
    }
  }

  lemma OwnerIs(resolves: Resolver, s: Schematic)
    ensures PrintMap(OwnerFields(resolves, s), 0) == OwnerLayout(resolves, s)
  {
    if s.owner != "" {
      ScalarField(resolves, "owner", s.owner, 0);
      PrintMapOne(OwnerFields(resolves, s)[0], 0);
      hide PrintMap, PrintField, Styled;
      assert "owner" + ": " == "owner: ";
    }
  }

  lemma OverlayIs(resolves: Resolver, s: Schematic)
    ensures PrintMap(OverlayFields(resolves, s), 0) == OverlayLayout(resolves, s)
  {
    if s.overlayImage != "" || s.overlayName != "" {
      OverlayLines(resolves, s);
      hide PrintMap, PrintField, Styled, Scalar;
      ScalarField(resolves, "image", s.overlayImage, 4);
      ScalarField(resolves, "name", s.overlayName, 4);
      assert "image" + ": " == "image: " && "name" + ": " == "name: ";
    }
  }

  lemma ArgsAre(resolves: Resolver, s: Schematic)
    ensures PrintMap(ArgsFields(resolves, s), 4) == ArgsLayout(resolves, s)
  {
    hide ScalarList, PrintList, ItemLines;
    if s.extraKernelArgs != [] {
      ItemsAre(resolves, 8, s.extraKernelArgs);
      PrintMapOne(ArgsFields(resolves, s)[0], 4);
      hide PrintMap;
      assert "extraKernelArgs" + ":" == "extraKernelArgs:";
    }
  }

  lemma MetaIs(resolves: Resolver, s: Schematic)
    ensures PrintMap(MetaFields(resolves, s), 4) == MetaLayout(resolves, s)
  {
    hide MetaList, PrintList, MetaItemLines;
    if s.meta != [] {
      MetaItemsAre(resolves, s.meta);
      PrintMapOne(MetaFields(resolves, s)[0], 4);
      MetaBlock(MetaList(resolves, s.meta));
      hide PrintMap, PrintField;
    }
  }

  lemma ExtensionsAre(resolves: Resolver, s: Schematic)
    ensures PrintMap(ExtensionFields(resolves, s), 4) == ExtensionsLayout(resolves, s)
  {
    hide ScalarList, PrintList, ItemLines, PrintMap;
    if s.extensions != [] {
      ItemsAre(resolves, 12, s.extensions);
      ExtensionLines(resolves, s);
      assert "officialExtensions" + ":" == "officialExtensions:";
    } else {
      NothingPrinted(4);
    }
  }

  lemma NothingPrinted(indent: nat)
    ensures PrintMap([], indent) == []
  {
  }

  lemma SecureBootIs(s: Schematic)
    ensures PrintMap(SecureBootFields(s), 4) == SecureBootLayout(s)
  {
    hide PrintMap;
    if s.wellKnownCertificates {
      SecureBootLines(s);
    } else {
      NothingPrinted(4);
    }
  }

  lemma CustomizationIs(resolves: Resolver, s: Schematic)
    ensures PrintMap([Customization(resolves, s)], 0) == CustomizationLayout(resolves, s)
  {
    hide PrintMap, PrintField, ArgsFields, MetaFields, ExtensionFields, SecureBootFields, ArgsLayout, MetaLayout,
      ExtensionsLayout, SecureBootLayout, Customization;
    PrintMapOne(Customization(resolves, s), 0);
    CustomizationKey(resolves, s);
    if s.extraKernelArgs == [] && s.meta == [] && s.extensions == [] && !s.wellKnownCertificates {
      NothingCustom(resolves, s);
    } else {
      CustomizationLines(resolves, s, []);
      ArgsAre(resolves, s);
      MetaIs(resolves, s);
      ExtensionsAre(resolves, s);
      SecureBootIs(s);
      assert [] + [Line(0, "customization:")] == [Line(0, "customization:")];
      assert [] + PrintField("customization", Customization(resolves, s).value, 0) ==
             PrintField("customization", Customization(resolves, s).value, 0);
    }
  }

  lemma CustomizationKey(resolves: Resolver, s: Schematic)
    ensures Customization(resolves, s).key == "customization"
  {
    hide CustomizationFields;
  }

  /** The document is these lines and no others. */
  lemma DocumentIsLayout(resolves: Resolver, s: Schematic)
    ensures SchematicYaml.Document(Fields(resolves, s)) == Text(Layout(resolves, s))
  {
    hide PrintMap, OwnerFields, OverlayFields, Customization, OwnerLayout, OverlayLayout, CustomizationLayout, Text;
    OwnerIs(resolves, s);
    OverlayIs(resolves, s);
    CustomizationIs(resolves, s);
    PrintMapConcat(OwnerFields(resolves, s), OverlayFields(resolves, s), 0);
    PrintMapConcat(OwnerFields(resolves, s) + OverlayFields(resolves, s), [Customization(resolves, s)], 0);
  }

  /* Which scalar a refusal names. */

  predicate Fine(s: string) { Representable(s) }

  predicate AllFine(values: seq<string>, n: nat)
    requires n <= |values|
  {
    forall i :: 0 <= i < n ==> Fine(values[i])
  }

  predicate MetaFine(meta: seq<MetaValue>, n: nat)
    requires n <= |meta|
  {
    forall i :: 0 <= i < n ==> Fine(meta[i].value)
  }

  /** A present overlay has both its halves looked at. */
  predicate OverlayFine(s: Schematic) {
    (s.overlayImage == "" && s.overlayName == "") || (Fine(s.overlayImage) && Fine(s.overlayName))
  }

  predicate OwnerFine(s: Schematic) {
    s.owner == "" || Fine(s.owner)
  }

  /** The place a refusal names holds a scalar that is refused, and everything before it in the document is fine. */
  predicate Located(s: Schematic, path: string, index: int) {
    || (path == "owner" && index == -1 && !OwnerFine(s))
    || (OwnerFine(s) && !OverlayFine(s) && index == -1 &&
        path == if !Fine(s.overlayImage) then "overlay.image" else "overlay.name")
    || (OwnerFine(s) && OverlayFine(s) &&
        (|| (path == "customization.extraKernelArgs" && 0 <= index < |s.extraKernelArgs|
             && !Fine(s.extraKernelArgs[index]) && AllFine(s.extraKernelArgs, index))
         || (AllFine(s.extraKernelArgs, |s.extraKernelArgs|) &&
             (|| (path == "customization.meta.value" && 0 <= index < |s.meta|
                  && !Fine(s.meta[index].value) && MetaFine(s.meta, index))
              || (MetaFine(s.meta, |s.meta|) && path == "customization.systemExtensions.officialExtensions"
                  && 0 <= index < |s.extensions| && !Fine(s.extensions[index]) && AllFine(s.extensions, index))))))
  }

  lemma {:induction false} RefusalConcat(a: seq<Place>, b: seq<Place>)
    ensures FirstRefusal(a + b) == if FirstRefusal(a).Some? then FirstRefusal(a) else FirstRefusal(b)
  {
    hide Refusal;
    if b == [] {
      assert a + b == a;
    } else {
      assert (a + b)[..|a + b| - 1] == a + b[..|b| - 1];
      RefusalConcat(a, b[..|b| - 1]);
    }
  }

  /** In a sequence the first scalar that is refused is named by its position. */
  lemma {:induction false} SequenceRefusal(path: string, values: seq<string>, n: nat)
    requires n <= |values|
    ensures match FirstRefusal(PlacesOf(path, values)[..n])
            case None => AllFine(values, n)
            case Some(e) => e.path == path && 0 <= e.index < n && !Fine(values[e.index]) && AllFine(values, e.index)
  {
    hide NotRepresentableReason;
    if n > 0 {
      SequenceRefusal(path, values, n - 1);
      assert PlacesOf(path, values)[..n][..n - 1] == PlacesOf(path, values)[..n - 1];
    }
  }

  lemma WholeSequence(path: string, values: seq<string>)
    ensures match FirstRefusal(PlacesOf(path, values))
            case None => AllFine(values, |values|)
            case Some(e) => e.path == path && 0 <= e.index < |values| && !Fine(values[e.index]) && AllFine(values, e.index)
  {
    hide FirstRefusal, Fine;
    SequenceRefusal(path, values, |values|);
    assert PlacesOf(path, values)[..|values|] == PlacesOf(path, values);
  }

  lemma OwnerRefusal(s: Schematic)
    ensures match FirstRefusal(OwnerPlaces(s))
            case None => OwnerFine(s)
            case Some(e) => e.path == "owner" && e.index == -1 && !OwnerFine(s)
  {
    hide NotRepresentableReason;
    assert s.owner != "" ==> OwnerPlaces(s)[..0] == [];
  }

  lemma OneRefusal(p: Place)
    ensures FirstRefusal([p]) == Refusal(p)
  {
    hide NotRepresentableReason;
    assert [p][..0] == [];
  }

  lemma OverlayRefusal(s: Schematic)
    ensures match FirstRefusal(OverlayPlaces(s))
            case None => OverlayFine(s)
            case Some(e) =>
              !OverlayFine(s) && e.index == -1 && e.path == if !Fine(s.overlayImage) then "overlay.image" else "overlay.name"
  {
    hide NotRepresentableReason;
    if s.overlayImage != "" || s.overlayName != "" {
      var image, name := Place("overlay.image", -1, s.overlayImage), Place("overlay.name", -1, s.overlayName);
      assert OverlayPlaces(s) == [image] + [name];
      RefusalConcat([image], [name]);
      OneRefusal(image);
      OneRefusal(name);
    }
  }

  /** A refusal names the first scalar of the document that is refused, by its path and its position there. */
  lemma RefusalIsLocated(s: Schematic)
    ensures match FirstRefusal(Places(s))
            case None => OwnerFine(s) && OverlayFine(s) && AllFine(s.extraKernelArgs, |s.extraKernelArgs|) &&
                         MetaFine(s.meta, |s.meta|) && AllFine(s.extensions, |s.extensions|)
            case Some(e) => Located(s, e.path, e.index)
  {
    hide FirstRefusal, OwnerPlaces, OverlayPlaces, PlacesOf, Fine;
    var a, m, e := PlacesOf("customization.extraKernelArgs", s.extraKernelArgs),
      PlacesOf("customization.meta.value", MetaValues(s.meta)),
      PlacesOf("customization.systemExtensions.officialExtensions", s.extensions);
    var o, v := OwnerPlaces(s), OverlayPlaces(s);
    OwnerRefusal(s);
    OverlayRefusal(s);
    WholeSequence("customization.extraKernelArgs", s.extraKernelArgs);
    WholeSequence("customization.meta.value", MetaValues(s.meta));
    WholeSequence("customization.systemExtensions.officialExtensions", s.extensions);
    RefusalConcat(o, v);
    RefusalConcat(o + v, a);
    RefusalConcat(o + v + a, m);
    RefusalConcat(o + v + a + m, e);
  }
}
