/**
 The writer of canonical schematics: a buffer that grows line by line and the first refusal, kept rather
 than returned at once.
 */
module SchematicWriter {
  import opened Wrappers
  import opened Decimals
  import opened SchematicYaml
  import opened SchematicDocument

  datatype Rendered = Document(text: string) | Refused(err: NotRepresentable)

  lemma {:induction false} TextConcat(a: seq<Line>, b: seq<Line>)
    ensures Text(a + b) == Text(a) + Text(b)
  {
    if a == [] {
      assert a + b == b;
    } else {
      assert (a + b)[1..] == a[1..] + b;
      TextConcat(a[1..], b);
    }
  }

  lemma TextOne(l: Line)
    ensures Text([l]) == Spaces(l.indent) + l.text + "\n"
  {
    assert [l][1..] == [];
  }

  lemma {:induction false} PrintListMore(items: seq<Node>, item: Node, indent: nat)
    ensures PrintList(items + [item], indent) == PrintList(items, indent) + PrintItem(item, indent)
  {
    hide PrintItem;
    if items == [] {
      assert [item][1..] == [];
      assert items + [item] == [item];
    } else {
      assert (items + [item])[1..] == items[1..] + [item];
      PrintListMore(items[1..], item, indent);
    }
  }

  lemma {:induction false} PrintMapConcat(a: seq<Field>, b: seq<Field>, indent: nat)
    ensures PrintMap(a + b, indent) == PrintMap(a, indent) + PrintMap(b, indent)
  {
    hide PrintField;
    if a == [] {
      assert a + b == b;
    } else {
      assert (a + b)[1..] == a[1..] + b;
      PrintMapConcat(a[1..], b, indent);
    }
  }

  lemma PrintMapOne(f: Field, indent: nat)
    ensures PrintMap([f], indent) == PrintField(f.key, f.value, indent)
  {
    hide PrintField;
    assert [f][1..] == [];
  }

  class CanonWriter {
    const resolves: Resolver
    var buf: string
    var err: Option<NotRepresentable>

    constructor (resolves: Resolver)
      ensures this.resolves == resolves && At([], [])
    {
      this.resolves, buf, err := resolves, "", None;
    }

    /** These scalars have been met; unless one was refused, these lines have been written. */
    ghost predicate At(met: seq<Place>, lines: seq<Line>)
      reads this
    {
      err == FirstRefusal(met) && (err.None? ==> buf == Text(lines))
    }

    /** Writes a rendered line, indented by its level. */
    method Raw(level: nat, line: string, ghost met: seq<Place>, ghost lines: seq<Line>)
      requires At(met, lines)
      modifies this`buf
      ensures At(met, lines + [Line(CANONICAL_INDENT * level, line)])
    {
      Append(CANONICAL_INDENT * level, line, met, lines);
    }

    method Append(indent: nat, line: string, ghost met: seq<Place>, ghost lines: seq<Line>)
      requires At(met, lines)
      modifies this`buf
      ensures At(met, lines + [Line(indent, line)])
    {
      TextConcat(lines, [Line(indent, line)]);
      TextOne(Line(indent, line));
      buf := buf + (Spaces(indent) + line + "\n");
    }

    /** Renders a scalar, or keeps the first refusal with the place it was met at. */
    method Render(value: string, path: string, index: int, ghost met: seq<Place>) returns (rendered: Option<string>)
      requires err == FirstRefusal(met)
      modifies this`err
      ensures err == FirstRefusal(met + [Place(path, index, value)])
      ensures rendered.None? ==> err.Some?
      ensures rendered.Some? ==> rendered.value == Show(StyleOf(resolves, value), value) && err == old(err)
    {
      hide NotRepresentableReason, EscapeDouble, EscapeSingle, PlainAllowed;
      assert (met + [Place(path, index, value)])[..|met|] == met;
      var reason := NotRepresentableReason(value);
      if reason.Some? {
        if err.None? {
          err := Some(NotRepresentable(path, index, reason.value));
        }
        return None;
      }
      var text := RenderScalar(resolves, value);
      rendered := Some(text);
    }

    /** A scalar-valued entry of a mapping. */
    method Entry(level: nat, name: string, value: string, path: string, ghost met: seq<Place>, ghost lines: seq<Line>)
      requires At(met, lines)
      modifies this
      ensures At(met + [Place(path, -1, value)],
                 lines + PrintField(name, Scalar(resolves, value), CANONICAL_INDENT * level))
    {
      hide FirstRefusal, Show, StyleOf;
      var rendered := Render(value, path, -1, met);
      if rendered.Some? {
        Raw(level, name + ": " + rendered.value, met + [Place(path, -1, value)], lines);
      }
    }

    /** An entry that belongs to an item whose dash line has been written. */
    method ContinuationEntry(level: nat, name: string, value: string, path: string, index: int,
                             ghost met: seq<Place>, ghost lines: seq<Line>)
      requires At(met, lines)
      modifies this
      ensures At(met + [Place(path, index, value)],
                 lines + PrintField(name, Scalar(resolves, value), CANONICAL_INDENT * level + 2))
    {
      hide FirstRefusal, Show, StyleOf;
      var rendered := Render(value, path, index, met);
      if rendered.Some? {
        Append(CANONICAL_INDENT * level + 2, name + ": " + rendered.value, met + [Place(path, index, value)], lines);
      }
    }

    /** A scalar item of a sequence. */
    method Item(level: nat, value: string, path: string, index: int, ghost met: seq<Place>, ghost lines: seq<Line>)
      requires At(met, lines)
      modifies this
      ensures At(met + [Place(path, index, value)],
                 lines + PrintItem(Scalar(resolves, value), CANONICAL_INDENT * level))
    {
      hide FirstRefusal, Show, StyleOf;
      var rendered := Render(value, path, index, met);
      if rendered.Some? {
        Raw(level, "- " + rendered.value, met + [Place(path, index, value)], lines);
      }
    }

    /** A key and the sequence of scalars under it. */
    method Items(level: nat, name: string, values: seq<string>, path: string,
                 ghost met: seq<Place>, ghost lines: seq<Line>)
      requires At(met, lines)
      modifies this
      ensures At(met + PlacesOf(path, values),
                 lines + PrintField(name, List(ScalarList(resolves, values)), CANONICAL_INDENT * level))
    {
      hide At, PrintItem, Scalar;
      ghost var nodes := ScalarList(resolves, values);
      ghost var places := PlacesOf(path, values);
      ghost var indent := CANONICAL_INDENT * (level + 1);
      Raw(level, name + ":", met, lines);
      ghost var top := lines + [Line(CANONICAL_INDENT * level, name + ":")];
      assert met + places[..0] == met && nodes[..0] == [] && top + PrintList(nodes[..0], indent) == top;
      for i := 0 to |values|
        invariant At(met + places[..i], top + PrintList(nodes[..i], indent))
      {
        Item(level + 1, values[i], path, i, met + places[..i], top + PrintList(nodes[..i], indent));
        assert met + places[..i] + [places[i]] == met + places[..i + 1];
        PrintListMore(nodes[..i], nodes[i], indent);
        assert nodes[..i] + [nodes[i]] == nodes[..i + 1];
        assert top + PrintList(nodes[..i], indent) + PrintItem(nodes[i], indent) == top + PrintList(nodes[..i + 1], indent);
      }
      assert places[..|values|] == places && nodes[..|values|] == nodes;
      assert top + PrintList(nodes, indent) == lines + ([Line(CANONICAL_INDENT * level, name + ":")] + PrintList(nodes, indent));
    }

    /** One entry of the META partition: its key on the dash line, its value below. */
    method Meta(m: MetaValue, index: int, ghost met: seq<Place>, ghost lines: seq<Line>)
      requires At(met, lines)
      modifies this
      ensures At(met + [Place("customization.meta.value", index, m.value)],
                 lines + PrintItem(MetaNode(resolves, m), 2 * CANONICAL_INDENT))
    {
      hide At, PrintItem, MetaNode, PrintField;
      Raw(2, "- key: " + Decimal(m.key), met, lines);
      ghost var dash := [Line(2 * CANONICAL_INDENT, "- key: " + Decimal(m.key))];
      ContinuationEntry(2, "value", m.value, "customization.meta.value", index, met, lines + dash);
      MetaLines(resolves, m);
      ghost var value := PrintField("value", Scalar(resolves, m.value), 2 * CANONICAL_INDENT + 2);
      assert lines + dash + value == lines + (dash + value);
    }

    /** The key and the entries of the META partition. */
    method Metas(meta: seq<MetaValue>, ghost met: seq<Place>, ghost lines: seq<Line>)
      requires At(met, lines)
      modifies this
      ensures At(met + PlacesOf("customization.meta.value", MetaValues(meta)),
                 lines + PrintField("meta", List(MetaList(resolves, meta)), CANONICAL_INDENT))
    {
      hide At, PrintItem, MetaNode, PrintField;
      ghost var nodes := MetaList(resolves, meta);
      ghost var places := PlacesOf("customization.meta.value", MetaValues(meta));
      ghost var indent := CANONICAL_INDENT * 2;
      Raw(1, "meta:", met, lines);
      ghost var top := lines + [Line(CANONICAL_INDENT, "meta:")];
      assert met + places[..0] == met && nodes[..0] == [] && top + PrintList(nodes[..0], indent) == top;
      for i := 0 to |meta|
        invariant At(met + places[..i], top + PrintList(nodes[..i], indent))
      {
        Meta(meta[i], i, met + places[..i], top + PrintList(nodes[..i], indent));
        assert met + places[..i] + [places[i]] == met + places[..i + 1];
        PrintListMore(nodes[..i], nodes[i], indent);
        assert nodes[..i] + [nodes[i]] == nodes[..i + 1];
        assert top + PrintList(nodes[..i], indent) + PrintItem(nodes[i], indent) == top + PrintList(nodes[..i + 1], indent);
      }
      assert places[..|meta|] == places && nodes[..|meta|] == nodes;
      MetaBlock(nodes);
      assert top + PrintList(nodes, indent) == lines + ([Line(CANONICAL_INDENT, "meta:")] + PrintList(nodes, indent));
    }

    method WriteOwner(s: Schematic, ghost met: seq<Place>, ghost lines: seq<Line>)
      requires At(met, lines)
      modifies this
      ensures At(met + OwnerPlaces(s), lines + PrintMap(OwnerFields(resolves, s), 0))
    {
      hide At, PrintField, Scalar;
      if s.owner != [] {
        Entry(0, "owner", s.owner, "owner", met, lines);
        PrintMapOne(OwnerFields(resolves, s)[0], 0);
      } else {
        assert met + [] == met && lines + [] == lines;
      }
    }

    method WriteOverlay(s: Schematic, ghost met: seq<Place>, ghost lines: seq<Line>)
      requires At(met, lines)
      modifies this
      ensures At(met + OverlayPlaces(s), lines + PrintMap(OverlayFields(resolves, s), 0))
    {
      hide At, PrintField, Scalar;
      if s.overlayImage != [] || s.overlayName != [] {
        Raw(0, "overlay:", met, lines);
        ghost var top := lines + [Line(0, "overlay:")];
        Entry(1, "image", s.overlayImage, "overlay.image", met, top);
        ghost var one, two := Place("overlay.image", -1, s.overlayImage), Place("overlay.name", -1, s.overlayName);
        ghost var image := PrintField("image", Scalar(resolves, s.overlayImage), CANONICAL_INDENT);
        ghost var name := PrintField("name", Scalar(resolves, s.overlayName), CANONICAL_INDENT);
        Entry(1, "name", s.overlayName, "overlay.name", met + [one], top + image);
        OverlayLines(resolves, s);
        assert met + [one] + [two] == met + OverlayPlaces(s);
        assert top + image + name == lines + ([Line(0, "overlay:")] + image + name);
      } else {
        assert met + [] == met && lines + [] == lines;
      }
    }

    method WriteArgs(s: Schematic, ghost met: seq<Place>, ghost lines: seq<Line>)
      requires At(met, lines)
      modifies this
      ensures At(met + PlacesOf("customization.extraKernelArgs", s.extraKernelArgs),
                 lines + PrintMap(ArgsFields(resolves, s), CANONICAL_INDENT))
    {
      hide At, PrintField, ScalarList;
      if s.extraKernelArgs != [] {
        Items(1, "extraKernelArgs", s.extraKernelArgs, "customization.extraKernelArgs", met, lines);
        PrintMapOne(ArgsFields(resolves, s)[0], CANONICAL_INDENT);
      } else {
        assert met + PlacesOf("customization.extraKernelArgs", []) == met && lines + [] == lines;
      }
    }

    method WriteMeta(s: Schematic, ghost met: seq<Place>, ghost lines: seq<Line>)
      requires At(met, lines)
      modifies this
      ensures At(met + PlacesOf("customization.meta.value", MetaValues(s.meta)),
                 lines + PrintMap(MetaFields(resolves, s), CANONICAL_INDENT))
    {
      hide At, PrintField, MetaList;
      if s.meta != [] {
        Metas(s.meta, met, lines);
        PrintMapOne(MetaFields(resolves, s)[0], CANONICAL_INDENT);
      } else {
        assert met + PlacesOf("customization.meta.value", MetaValues([])) == met && lines + [] == lines;
      }
    }

    method WriteExtensions(s: Schematic, ghost met: seq<Place>, ghost lines: seq<Line>)
      requires At(met, lines)
      modifies this
      ensures At(met + PlacesOf("customization.systemExtensions.officialExtensions", s.extensions),
                 lines + PrintMap(ExtensionFields(resolves, s), CANONICAL_INDENT))
    {
      hide At, PrintField, ScalarList;
      if s.extensions != [] {
        Raw(1, "systemExtensions:", met, lines);
        ghost var top := lines + [Line(CANONICAL_INDENT, "systemExtensions:")];
        Items(2, "officialExtensions", s.extensions, "customization.systemExtensions.officialExtensions", met, top);
        ExtensionLines(resolves, s);
        ghost var list := PrintField("officialExtensions", List(ScalarList(resolves, s.extensions)), 2 * CANONICAL_INDENT);
        assert top + list == lines + ([Line(CANONICAL_INDENT, "systemExtensions:")] + list);
      } else {
        assert met + PlacesOf("customization.systemExtensions.officialExtensions", []) == met && lines + [] == lines;
      }
    }

    method WriteSecureBoot(s: Schematic, ghost met: seq<Place>, ghost lines: seq<Line>)
      requires At(met, lines)
      modifies this
      ensures At(met, lines + PrintMap(SecureBootFields(s), CANONICAL_INDENT))
    {
      hide At, PrintField;
      if s.wellKnownCertificates {
        Raw(1, "secureboot:", met, lines);
        ghost var top := lines + [Line(CANONICAL_INDENT, "secureboot:")];
        Raw(2, "includeWellKnownCertificates: true", met, top);
        SecureBootLines(s);
        ghost var flag := [Line(2 * CANONICAL_INDENT, "includeWellKnownCertificates: true")];
        assert top + flag == lines + ([Line(CANONICAL_INDENT, "secureboot:")] + flag);
      } else {
        assert lines + [] == lines;
      }
    }

    method WriteCustomization(s: Schematic, ghost met: seq<Place>, ghost lines: seq<Line>)
      requires At(met, lines)
      modifies this
      ensures At(met + CustomizationPlaces(s), lines + PrintMap([Customization(resolves, s)], 0))
    {
      hide At, PrintField, PrintMap, ScalarList, MetaList, PlacesOf, MetaValues;
      PrintMapOne(Customization(resolves, s), 0);
      if s.extraKernelArgs == [] && s.meta == [] && s.extensions == [] && !s.wellKnownCertificates {
        Raw(0, "customization: {}", met, lines);
        NothingCustom(resolves, s);
        assert met + [] == met;
        return;
      }
      Raw(0, "customization:", met, lines);
      ghost var top := lines + [Line(0, "customization:")];
      ghost var m1 := met + PlacesOf("customization.extraKernelArgs", s.extraKernelArgs);
      ghost var m2 := m1 + PlacesOf("customization.meta.value", MetaValues(s.meta));
      ghost var m3 := m2 + PlacesOf("customization.systemExtensions.officialExtensions", s.extensions);
      ghost var l1 := top + PrintMap(ArgsFields(resolves, s), CANONICAL_INDENT);
      ghost var l2 := l1 + PrintMap(MetaFields(resolves, s), CANONICAL_INDENT);
      ghost var l3 := l2 + PrintMap(ExtensionFields(resolves, s), CANONICAL_INDENT);
      WriteArgs(s, met, top);
      WriteMeta(s, m1, l1);
      WriteExtensions(s, m2, l2);
      WriteSecureBoot(s, m3, l3);
      assert m3 == met + CustomizationPlaces(s);
      CustomizationLines(resolves, s, lines);
    }
  }

  /**
   Renders a schematic, or names the first scalar it will not render.  It fails exactly when some scalar is
   not representable, and what it renders can be read back.
   */
  method Canonical(resolves: Resolver, s: Schematic) returns (r: Rendered)
    ensures match r {
      case Document(text) => FirstRefusal(Places(s)).None? && text == SchematicYaml.Document(Fields(resolves, s))
      case Refused(e) => FirstRefusal(Places(s)) == Some(e)
    }
    ensures r.Document? <==> AllRepresentable(s)
    ensures r.Document? ==> ReadSchematic(resolves, r.text) == Some(s)
  {
    hide PrintMap, Customization, OwnerFields, OverlayFields, OwnerPlaces, OverlayPlaces, FirstRefusal, Text,
      NotRepresentableReason, ReadSchematic, Places;
    var w := new CanonWriter(resolves);
    ghost var owner, overlay := PrintMap(OwnerFields(resolves, s), 0), PrintMap(OverlayFields(resolves, s), 0);
    w.WriteOwner(s, [], []);
    assert [] + OwnerPlaces(s) == OwnerPlaces(s) && [] + owner == owner;
    w.WriteOverlay(s, OwnerPlaces(s), owner);
    w.WriteCustomization(s, OwnerPlaces(s) + OverlayPlaces(s), owner + overlay);
    PrintMapConcat(OwnerFields(resolves, s), OverlayFields(resolves, s), 0);
    PrintMapConcat(OwnerFields(resolves, s) + OverlayFields(resolves, s), [Customization(resolves, s)], 0);
    PlacesAre(s);
    FirstRefusalExact(Places(s));
    if w.err.Some? {
      return Refused(w.err.value);
    }
    SchematicRoundTrip(resolves, s);
    r := Document(w.buf);
  }

  function CustomizationPlaces(s: Schematic): seq<Place> {
    PlacesOf("customization.extraKernelArgs", s.extraKernelArgs) +
    PlacesOf("customization.meta.value", MetaValues(s.meta)) +
    PlacesOf("customization.systemExtensions.officialExtensions", s.extensions)
  }

  lemma PlacesAre(s: Schematic)
    ensures Places(s) == OwnerPlaces(s) + OverlayPlaces(s) + CustomizationPlaces(s)
  {
    hide PlacesOf, MetaValues;
  }

  lemma NothingCustom(resolves: Resolver, s: Schematic)
    requires s.extraKernelArgs == [] && s.meta == [] && s.extensions == [] && !s.wellKnownCertificates
    ensures CustomizationPlaces(s) == []
    ensures PrintField("customization", Customization(resolves, s).value, 0) == [Line(0, "customization: {}")]
    ensures Customization(resolves, s).key == "customization"
  {
    assert "customization" + ": {}" == "customization: {}";
  }

  lemma OverlayLines(resolves: Resolver, s: Schematic)
    requires s.overlayImage != [] || s.overlayName != []
    ensures PrintMap(OverlayFields(resolves, s), 0) ==
            [Line(0, "overlay:")] + PrintField("image", Scalar(resolves, s.overlayImage), CANONICAL_INDENT) +
            PrintField("name", Scalar(resolves, s.overlayName), CANONICAL_INDENT)
  {
    hide Scalar;
    var image, name := Field("image", Scalar(resolves, s.overlayImage)), Field("name", Scalar(resolves, s.overlayName));
    PrintMapOne(OverlayFields(resolves, s)[0], 0);
    assert [image, name] == [image] + [name] && "overlay" + ":" == "overlay:";
    PrintMapConcat([image], [name], CANONICAL_INDENT);
    PrintMapOne(image, CANONICAL_INDENT);
    PrintMapOne(name, CANONICAL_INDENT);
    hide PrintMap;
  }

  lemma ExtensionLines(resolves: Resolver, s: Schematic)
    requires s.extensions != []
    ensures PrintMap(ExtensionFields(resolves, s), CANONICAL_INDENT) ==
            [Line(CANONICAL_INDENT, "systemExtensions:")] +
            PrintField("officialExtensions", List(ScalarList(resolves, s.extensions)), 2 * CANONICAL_INDENT)
  {
    hide ScalarList;
    var list := Field("officialExtensions", List(ScalarList(resolves, s.extensions)));
    PrintMapOne(ExtensionFields(resolves, s)[0], CANONICAL_INDENT);
    PrintMapOne(list, 2 * CANONICAL_INDENT);
    assert "systemExtensions" + ":" == "systemExtensions:";
    hide PrintMap, PrintList;
  }

  lemma SecureBootLines(s: Schematic)
    requires s.wellKnownCertificates
    ensures PrintMap(SecureBootFields(s), CANONICAL_INDENT) ==
            [Line(CANONICAL_INDENT, "secureboot:")] + [Line(2 * CANONICAL_INDENT, "includeWellKnownCertificates: true")]
  {
    var flag := Field("includeWellKnownCertificates", Leaf(Plain, "true"));
    PrintMapOne(SecureBootFields(s)[0], CANONICAL_INDENT);
    PrintMapOne(flag, 2 * CANONICAL_INDENT);
    assert "secureboot" + ":" == "secureboot:";
    assert "includeWellKnownCertificates" + ": " + "true" == "includeWellKnownCertificates: true";
    hide PrintMap;
  }

  lemma CustomizationLines(resolves: Resolver, s: Schematic, lines: seq<Line>)
    requires s.extraKernelArgs != [] || s.meta != [] || s.extensions != [] || s.wellKnownCertificates
    ensures lines + [Line(0, "customization:")] + PrintMap(ArgsFields(resolves, s), CANONICAL_INDENT) +
              PrintMap(MetaFields(resolves, s), CANONICAL_INDENT) +
              PrintMap(ExtensionFields(resolves, s), CANONICAL_INDENT) +
              PrintMap(SecureBootFields(s), CANONICAL_INDENT) ==
            lines + PrintField("customization", Customization(resolves, s).value, 0)
  {
    hide PrintMap, ScalarList, MetaList;
    var a, m, e, b := ArgsFields(resolves, s), MetaFields(resolves, s), ExtensionFields(resolves, s), SecureBootFields(s);
    PrintMapConcat(a, m, CANONICAL_INDENT);
    PrintMapConcat(a + m, e, CANONICAL_INDENT);
    PrintMapConcat(a + m + e, b, CANONICAL_INDENT);
    assert CustomizationFields(resolves, s) != [];
    assert "customization" + ":" == "customization:";
    hide ArgsFields, MetaFields, ExtensionFields, SecureBootFields;
    Regroup(lines, [Line(0, "customization:")], PrintMap(a, CANONICAL_INDENT), PrintMap(m, CANONICAL_INDENT),
      PrintMap(e, CANONICAL_INDENT), PrintMap(b, CANONICAL_INDENT));
  }

  lemma Regroup(x: seq<Line>, y: seq<Line>, a: seq<Line>, b: seq<Line>, c: seq<Line>, d: seq<Line>)
    ensures x + y + a + b + c + d == x + (y + (a + b + c + d))
  {
  }

  method RenderScalar(resolves: Resolver, s: string) returns (text: string)
    ensures text == Show(StyleOf(resolves, s), s)
  {
    hide EscapeDouble, EscapeSingle, PlainAllowed;
    if resolves(s) {
      return "\"" + EscapeDouble(s) + "\"";
    }
    var plain := IsPlainAllowed(s);
    if plain {
      return s;
    }
    text := "'" + EscapeSingle(s) + "'";
  }

  lemma MetaLines(resolves: Resolver, m: MetaValue)
    ensures PrintItem(MetaNode(resolves, m), 2 * CANONICAL_INDENT) ==
            [Line(2 * CANONICAL_INDENT, "- key: " + Decimal(m.key))] +
            PrintField("value", Scalar(resolves, m.value), 2 * CANONICAL_INDENT + 2)
  {
    hide Scalar, Decimal;
    var key, value := Field("key", Leaf(Plain, Decimal(m.key))), Field("value", Scalar(resolves, m.value));
    var indent := 2 * CANONICAL_INDENT + 2;
    PrintMapConcat([key], [value], indent);
    PrintMapOne(key, indent);
    PrintMapOne(value, indent);
    assert [key] + [value] == [key, value];
    assert "- " + ("key" + ": " + Decimal(m.key)) == "- key: " + Decimal(m.key);
  }

  lemma MetaBlock(nodes: seq<Node>)
    ensures PrintField("meta", List(nodes), CANONICAL_INDENT) ==
            [Line(CANONICAL_INDENT, "meta:")] + PrintList(nodes, 2 * CANONICAL_INDENT)
  {
    hide PrintList;
    assert "meta" + ":" == "meta:";
  }
}
