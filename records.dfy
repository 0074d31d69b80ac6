/** The records of proteome_exchange/dataset.py and the transforms that build
    them from the ProteomeXchange XML document. An XML element is reduced to
    its attribute map and the attribute maps of its children; locating the
    elements (`findall`, `find`) is left to the XML library. */
module Records {
  import opened Wrappers
  import Text
  import Dicts
  import Bundles
  import Reprs

  /** The attributes of one XML element (`node.attrib`). */
  type Attrs = map<string, string>

  /** An XML element: its attributes and the attributes of its children. */
  datatype Element = Element(attrib: Attrs, children: seq<Attrs>)

  /** The exception a transform raises on a malformed element. */
  datatype ParseError =
    | KeyError(key: string)   // `attrib[key]` on a missing attribute
    | IndexError              // `x[0]` on an element without children
    | NoElement               // `find(...)` found nothing and `.attrib` was read from `None`

  /** `DatasetFile(id, name, file_type, uri)`. */
  datatype DatasetFile = DatasetFile(id: string, name: string, fileType: string, uri: string)

  /** `DatasetIdentifier(repository, id)`. */
  datatype DatasetIdentifier = DatasetIdentifier(repository: string, id: string)

  /** A value stored from a `cvParam`: its `value` attribute, or Python's
      `True` when it has none. */
  datatype ParamValue = Given(s: string) | Flag

  /** `DatasetFile.MAX_LEN_DISPLAY`. */
  const FILE_MAX_LEN_DISPLAY: nat := 256

  /** `name.replace("URI", "").strip()`: the file type text of a file's
      `cvParam`, with every `URI` and the surrounding whitespace removed. */
  function FileType(cvName: string): (r: string)
    ensures r == [] || (!Text.IsSpace(r[0]) && !Text.IsSpace(r[|r| - 1]))
  {
    Text.Strip(Text.Replace(cvName, "URI", ""))
  }

  /** A text without `URI` loses only its surrounding whitespace. */
  lemma FileTypeTrimsLabel(text: string)
    requires forall i :: !Text.OccursAt(text, "URI", i)
    ensures exists k :: Text.TrimmedAt(text, FileType(text), k)
  {
    Text.ReplaceAbsent(text, "URI", "");
    assert FileType(text) == Text.Strip(text);
    var k :| Text.TrimmedAt(text, Text.Strip(text), k);
  }

  /** A text that neither holds `URI` nor has surrounding whitespace is its
      own file type. */
  lemma FileTypeOfPlainLabel(text: string)
    requires forall i :: !Text.OccursAt(text, "URI", i)
    requires text == [] || (!Text.IsSpace(text[0]) && !Text.IsSpace(text[|text| - 1]))
    ensures FileType(text) == text
  {
    FileTypeTrimsLabel(text);
    var k :| Text.TrimmedAt(text, FileType(text), k);
    if text != [] {
      assert k == 0;
      assert |FileType(text)| == |text|;
    }
  }

  /** No `URI` starts inside a name free of it or at the space after it. */
  lemma NoUriBefore(kind: string, i: int)
    requires forall k :: !Text.OccursAt(kind, "URI", k)
    requires 0 <= i <= |kind|
    ensures !Text.OccursAt(kind + " " + "URI", "URI", i)
  {
    var s := kind + " " + "URI";
    assert |s| == |kind| + 4;
    if i + 3 <= |kind| {
      assert s[i..i + 3] == kind[i..i + 3];
      assert !Text.OccursAt(kind, "URI", i);
    } else {
      var j := |kind| - i;
      assert 0 <= j < 3 && s[i + j] == ' ';
      assert s[i..i + 3][j] == ' ' && "URI"[j] != ' ';
    }
  }

  /** Removing `URI` from a name free of it followed by ` URI` leaves the
      name and the space. */
  lemma RemoveUriSuffix(kind: string)
    requires forall i :: !Text.OccursAt(kind, "URI", i)
    ensures Text.Replace(kind + " URI", "URI", "") == kind + " "
  {
    var a := kind + " ";
    assert kind + " URI" == a + "URI";
    forall i | 0 <= i < |a| ensures !Text.OccursAt(a + "URI", "URI", i) {
      NoUriBefore(kind, i);
    }
    Text.ReplaceAfterPrefix(a, "URI", "URI", "");
    Text.ReplaceLeading("URI", "", "");
    assert "URI" + "" == "URI";
  }

  /** A name followed by ` URI`, as in `"Associated raw file URI"`, gives the
      name before it: the `URI` is removed and so is the space before it. */
  lemma FileTypeOfUriName(kind: string)
    requires forall i :: !Text.OccursAt(kind, "URI", i)
    requires kind == [] || (!Text.IsSpace(kind[0]) && !Text.IsSpace(kind[|kind| - 1]))
    ensures FileType(kind + " URI") == kind
  {
    RemoveUriSuffix(kind);
    Text.StripTrailingSpace(kind);
  }

  /** `DatasetFile.from_xml(node)`, given the node's attributes and its first
      `cvParam` descendant. Arguments are read left to right, so the first
      missing piece names the error. */
  function FileFromXml(attrib: Attrs, cvParam: Option<Attrs>): (r: Result<DatasetFile, ParseError>)
    ensures r.Ok? <==> "id" in attrib && "name" in attrib && cvParam.Some? &&
                       "name" in cvParam.value && "value" in cvParam.value
    ensures r.Ok? ==> r.value.id == attrib["id"] && r.value.name == attrib["name"] &&
                      r.value.fileType == FileType(cvParam.value["name"]) && r.value.uri == cvParam.value["value"]
    ensures "id" !in attrib ==> r == Err(KeyError("id"))
    ensures "id" in attrib && "name" !in attrib ==> r == Err(KeyError("name"))
    ensures "id" in attrib && "name" in attrib && cvParam.None? ==> r == Err(NoElement)
    ensures "id" in attrib && "name" in attrib && cvParam.Some? && "name" !in cvParam.value ==>
              r == Err(KeyError("name"))
    ensures ("id" in attrib && "name" in attrib && cvParam.Some? && "name" in cvParam.value &&
             "value" !in cvParam.value) ==> r == Err(KeyError("value"))
  {
    if "id" !in attrib then Err(KeyError("id"))
    else if "name" !in attrib then Err(KeyError("name"))
    else if cvParam.None? then Err(NoElement)
    else if "name" !in cvParam.value then Err(KeyError("name"))
    else if "value" !in cvParam.value then Err(KeyError("value"))
    else Ok(DatasetFile(attrib["id"], attrib["name"], FileType(cvParam.value["name"]), cvParam.value["value"]))
  }

  /** One entry of `parse_identifier_list`: the name and value of the
      element's first child. */
  function IdentifierOf(node: Element): (r: Result<DatasetIdentifier, ParseError>)
    ensures node.children == [] ==> r == Err(IndexError)
    ensures r.Ok? <==> node.children != [] && "name" in node.children[0] && "value" in node.children[0]
    ensures r.Ok? ==> r.value == DatasetIdentifier(node.children[0]["name"], node.children[0]["value"])
  {
    if node.children == [] then Err(IndexError)
    else
      var first := node.children[0];
      if "name" !in first then Err(KeyError("name"))
      else if "value" !in first then Err(KeyError("value"))
      else Ok(DatasetIdentifier(first["name"], first["value"]))
  }

  /** `parse_identifier_list(node)` over the `DatasetIdentifier` elements. */
  function ParseIdentifierList(nodes: seq<Element>): (r: Result<seq<DatasetIdentifier>, ParseError>)
    ensures r.Ok? ==> |r.value| == |nodes|
    ensures r.Ok? ==> forall i :: 0 <= i < |nodes| ==> IdentifierOf(nodes[i]) == Ok(r.value[i])
  {
    MapAll(nodes, IdentifierOf)
  }

  // ---------------------------------------------------------------- species

  /** The `Species` slot a `cvParam` name addresses: `"taxonomy: "` removed,
      then spaces turned into underscores by the bundle. */
  function SpeciesKey(name: string): string {
    Bundles.Normalise(Text.Replace(name, "taxonomy: ", ""))
  }

  /** A `"taxonomy: "` prefix is removed before the bundle sees the key, so it
      does not survive as `taxonomy:_`. */
  lemma SpeciesKeyDropsTaxonomy(k: string)
    requires forall i :: !Text.OccursAt(k, "taxonomy: ", i)
    ensures SpeciesKey("taxonomy: " + k) == Bundles.Normalise(k)
  {
    Text.ReplaceLeading("taxonomy: ", k, "");
    Text.ReplaceAbsent(k, "taxonomy: ", "");
    assert "" + k == k;
  }

  /** `entry[param['name'].replace(...)] = param['value']` for one `cvParam`;
      the right-hand side is evaluated first. */
  function SpeciesParam(p: Attrs): Result<(string, string), ParseError> {
    if "value" !in p then Err(KeyError("value"))
    else if "name" !in p then Err(KeyError("name"))
    else Ok((SpeciesKey(p["name"]), p["value"]))
  }

  /** The slots of the `Species` bundle built from one `Species` element. */
  function SpeciesEntry(node: Element): (r: Result<map<string, string>, ParseError>)
    ensures r.Ok? <==> forall i :: 0 <= i < |node.children| ==> "name" in node.children[i] && "value" in node.children[i]
  {
    match MapAll(node.children, SpeciesParam)
    case Err(e) => Err(e)
    case Ok(kvs) => Ok(Dicts.StoreAll(map[], kvs))
  }

  /** The slots of a species entry are the species keys of the names, and
      each slot holds the value of the last `cvParam` addressing it. */
  lemma SpeciesEntrySpec(node: Element)
    ensures SpeciesEntry(node).Ok? ==>
              SpeciesEntry(node).value.Keys == set i | 0 <= i < |node.children| :: SpeciesKey(node.children[i]["name"])
    ensures SpeciesEntry(node).Ok? ==>
              forall i :: 0 <= i < |node.children| &&
                          (forall j :: i < j < |node.children| ==> SpeciesKey(node.children[j]["name"]) != SpeciesKey(node.children[i]["name"])) ==>
                SpeciesEntry(node).value[SpeciesKey(node.children[i]["name"])] == node.children[i]["value"]
  {
    var ps := node.children;
    var pairs := MapAll(ps, SpeciesParam);
    if pairs.Ok? {
      var kvs := pairs.value;
      assert forall i :: 0 <= i < |ps| ==> kvs[i] == (SpeciesKey(ps[i]["name"]), ps[i]["value"]);
      assert Dicts.WrittenKeys(kvs) == set i | 0 <= i < |ps| :: SpeciesKey(ps[i]["name"]);
      forall i | 0 <= i < |ps| && (forall j :: i < j < |ps| ==> SpeciesKey(ps[j]["name"]) != SpeciesKey(ps[i]["name"]))
        ensures Dicts.StoreAll(map[], kvs)[SpeciesKey(ps[i]["name"])] == ps[i]["value"]
      {
        Dicts.StoreAllLastWins(map[], kvs, i);
      }
    }
  }

  /** `parse_species_list(node)` over the `Species` elements. */
  method ParseSpeciesList(nodes: seq<Element>) returns (r: Result<seq<map<string, string>>, ParseError>)
    ensures r == MapAll(nodes, SpeciesEntry)
  {
    var species: seq<map<string, string>> := [];
    for i := 0 to |nodes|
      invariant MapAll(nodes[..i], SpeciesEntry) == Ok(species)
    {
      var entry := new Bundles.Bundle<string>([]);
      assert entry.slots == map[];
      var params := nodes[i].children;
      ghost var kvs: seq<(string, string)> := [];
      for j := 0 to |params|
        invariant MapAll(params[..j], SpeciesParam) == Ok(kvs)
        invariant entry.slots == Dicts.StoreAll(map[], kvs)
      {
        var param := params[j];
        MapAllStep(params, SpeciesParam, j, kvs);
        if "value" !in param || "name" !in param {
          MapAllStep(nodes, SpeciesEntry, i, species);
          return Err(KeyError(if "value" !in param then "value" else "name"));
        }
        entry.Set(Text.Replace(param["name"], "taxonomy: ", ""), param["value"]);
        Dicts.StoreAllSnoc(map[], kvs, SpeciesKey(param["name"]), param["value"]);
        kvs := kvs + [(SpeciesKey(param["name"]), param["value"])];
      }
      assert params[..|params|] == params;
      MapAllStep(nodes, SpeciesEntry, i, species);
      species := species + [entry.slots];
    }
    assert nodes[..|nodes|] == nodes;
    r := Ok(species);
  }

  // ------------------------------------------------------------ instruments

  /** `param.get('value', True)`. */
  function ValueOf(p: Attrs): ParamValue {
    if "value" in p then Given(p["value"]) else Flag
  }

  /** `entry[param['name']] = param.get('value', True)` in a plain dict. */
  function InstrumentParam(p: Attrs): Result<(string, ParamValue), ParseError> {
    if "name" !in p then Err(KeyError("name")) else Ok((p["name"], ValueOf(p)))
  }

  /** The dict built from one `Instrument` element: `id` first, then one slot
      per `cvParam` name. */
  function InstrumentEntry(node: Element): (r: Result<map<string, ParamValue>, ParseError>)
    ensures r.Ok? <==> "id" in node.attrib && forall i :: 0 <= i < |node.children| ==> "name" in node.children[i]
    ensures "id" !in node.attrib ==> r == Err(KeyError("id"))
  {
    if "id" !in node.attrib then Err(KeyError("id"))
    else
      match MapAll(node.children, InstrumentParam)
      case Err(e) => Err(e)
      case Ok(kvs) => Ok(Dicts.StoreAll(map["id" := Given(node.attrib["id"])], kvs))
  }

  /** An instrument entry always has an `id` slot, holding the element's
      `id` unless a `cvParam` named `id` overrides it; every other slot holds
      the value of the last `cvParam` of that name, `True` when that one has
      no value. */
  lemma InstrumentEntrySpec(node: Element)
    ensures InstrumentEntry(node).Ok? ==>
              InstrumentEntry(node).value.Keys == {"id"} + set i | 0 <= i < |node.children| :: node.children[i]["name"]
    ensures InstrumentEntry(node).Ok? && (forall i :: 0 <= i < |node.children| ==> node.children[i]["name"] != "id") ==>
              InstrumentEntry(node).value["id"] == Given(node.attrib["id"])
    ensures InstrumentEntry(node).Ok? ==>
              forall i :: 0 <= i < |node.children| &&
                          (forall j :: i < j < |node.children| ==> node.children[j]["name"] != node.children[i]["name"]) ==>
                InstrumentEntry(node).value[node.children[i]["name"]] == ValueOf(node.children[i])
  {
    var ps := node.children;
    var pairs := MapAll(ps, InstrumentParam);
    if "id" in node.attrib && pairs.Ok? {
      var kvs := pairs.value;
      var start := map["id" := Given(node.attrib["id"])];
      assert forall i :: 0 <= i < |ps| ==> kvs[i] == (ps[i]["name"], ValueOf(ps[i]));
      assert Dicts.WrittenKeys(kvs) == set i | 0 <= i < |ps| :: ps[i]["name"];
      if forall i :: 0 <= i < |ps| ==> ps[i]["name"] != "id" {
        Dicts.StoreAllUntouched(start, kvs, "id");
      }
      forall i | 0 <= i < |ps| && (forall j :: i < j < |ps| ==> ps[j]["name"] != ps[i]["name"])
        ensures Dicts.StoreAll(start, kvs)[ps[i]["name"]] == ValueOf(ps[i])
      {
        Dicts.StoreAllLastWins(start, kvs, i);
      }
    }
  }

  /** `parse_instrument_list(node)` over the `Instrument` elements. */
  method ParseInstrumentList(nodes: seq<Element>) returns (r: Result<seq<map<string, ParamValue>>, ParseError>)
    ensures r == MapAll(nodes, InstrumentEntry)
  {
    var instruments: seq<map<string, ParamValue>> := [];
    for i := 0 to |nodes|
      invariant MapAll(nodes[..i], InstrumentEntry) == Ok(instruments)
    {
      var inst := nodes[i];
      if "id" !in inst.attrib {
        MapAllStep(nodes, InstrumentEntry, i, instruments);
        return Err(KeyError("id"));
      }
      var entry: map<string, ParamValue> := map[];
      entry := entry["id" := Given(inst.attrib["id"])];
      ghost var kvs: seq<(string, ParamValue)> := [];
      for j := 0 to |inst.children|
        invariant MapAll(inst.children[..j], InstrumentParam) == Ok(kvs)
        invariant entry == Dicts.StoreAll(map["id" := Given(inst.attrib["id"])], kvs)
      {
        var param := inst.children[j];
        MapAllStep(inst.children, InstrumentParam, j, kvs);
        if "name" !in param {
          MapAllStep(nodes, InstrumentEntry, i, instruments);
          return Err(KeyError("name"));
        }
        var value := if "value" in param then Given(param["value"]) else Flag;
        entry := entry[param["name"] := value];
        Dicts.StoreAllSnoc(map["id" := Given(inst.attrib["id"])], kvs, param["name"], value);
        kvs := kvs + [(param["name"], value)];
      }
      assert inst.children[..|inst.children|] == inst.children;
      MapAllStep(nodes, InstrumentEntry, i, instruments);
      instruments := instruments + [entry];
    }
    assert nodes[..|nodes|] == nodes;
    r := Ok(instruments);
  }

  // --------------------------------------------------------------- contacts

  /** `entry[param['name']] = param.get('value', True)` in a `Contact` bundle. */
  function ContactParam(p: Attrs): Result<(string, ParamValue), ParseError> {
    if "name" !in p then Err(KeyError("name")) else Ok((Bundles.Normalise(p["name"]), ValueOf(p)))
  }

  /** The slots of the `Contact` bundle built from one `Contact` element. */
  function ContactEntry(node: Element): (r: Result<map<string, ParamValue>, ParseError>)
    ensures r.Ok? <==> forall i :: 0 <= i < |node.children| ==> "name" in node.children[i]
  {
    match MapAll(node.children, ContactParam)
    case Err(e) => Err(e)
    case Ok(kvs) => Ok(Dicts.StoreAll(map[], kvs))
  }

  /** Reading a `cvParam`'s own name back from a contact entry gives the
      value of the last `cvParam` addressing that slot, `True` when that one
      has no value. */
  lemma ContactEntrySpec(node: Element)
    ensures ContactEntry(node).Ok? ==>
              forall i :: 0 <= i < |node.children| &&
                          (forall j :: i < j < |node.children| ==>
                             Bundles.Normalise(node.children[j]["name"]) != Bundles.Normalise(node.children[i]["name"])) ==>
                Bundles.Lookup(ContactEntry(node).value, node.children[i]["name"]) == Ok(ValueOf(node.children[i]))
  {
    var ps := node.children;
    var pairs := MapAll(ps, ContactParam);
    if pairs.Ok? {
      var kvs := pairs.value;
      assert forall j :: 0 <= j < |ps| ==> kvs[j] == (Bundles.Normalise(ps[j]["name"]), ValueOf(ps[j]));
      forall i | 0 <= i < |ps| && (forall j :: i < j < |ps| ==> Bundles.Normalise(ps[j]["name"]) != Bundles.Normalise(ps[i]["name"]))
        ensures Bundles.Lookup(Dicts.StoreAll(map[], kvs), ps[i]["name"]) == Ok(ValueOf(ps[i]))
      {
        Dicts.StoreAllLastWins(map[], kvs, i);
      }
    }
  }

  /** The slots of a contact entry are exactly the normalised `cvParam`
      names. */
  lemma ContactEntryKeys(node: Element)
    ensures ContactEntry(node).Ok? ==>
              ContactEntry(node).value.Keys == set i | 0 <= i < |node.children| :: Bundles.Normalise(node.children[i]["name"])
  {
    var ps := node.children;
    var pairs := MapAll(ps, ContactParam);
    if pairs.Ok? {
      var kvs := pairs.value;
      assert forall j :: 0 <= j < |ps| ==> kvs[j].0 == Bundles.Normalise(ps[j]["name"]);
      assert Dicts.WrittenKeys(kvs) == set i | 0 <= i < |ps| :: Bundles.Normalise(ps[i]["name"]);
    }
  }

  /** `parse_contacts_list(node)` over the `Contact` elements. */
  method ParseContactsList(nodes: seq<Element>) returns (r: Result<seq<map<string, ParamValue>>, ParseError>)
    ensures r == MapAll(nodes, ContactEntry)
  {
    var contacts: seq<map<string, ParamValue>> := [];
    for i := 0 to |nodes|
      invariant MapAll(nodes[..i], ContactEntry) == Ok(contacts)
    {
      var entry := new Bundles.Bundle<ParamValue>([]);
      assert entry.slots == map[];
      var params := nodes[i].children;
      ghost var kvs: seq<(string, ParamValue)> := [];
      for j := 0 to |params|
        invariant MapAll(params[..j], ContactParam) == Ok(kvs)
        invariant entry.slots == Dicts.StoreAll(map[], kvs)
      {
        var param := params[j];
        MapAllStep(params, ContactParam, j, kvs);
        if "name" !in param {
          MapAllStep(nodes, ContactEntry, i, contacts);
          return Err(KeyError("name"));
        }
        var value := if "value" in param then Given(param["value"]) else Flag;
        entry.Set(param["name"], value);
        Dicts.StoreAllSnoc(map[], kvs, Bundles.Normalise(param["name"]), value);
        kvs := kvs + [(Bundles.Normalise(param["name"]), value)];
      }
      assert params[..|params|] == params;
      MapAllStep(nodes, ContactEntry, i, contacts);
      contacts := contacts + [entry.slots];
    }
    assert nodes[..|nodes|] == nodes;
    r := Ok(contacts);
  }

  // ------------------------------------------------------------------ repr

  /** The attributes of a `DatasetFile` in the order `__init__` sets them. */
  function FileFields(f: DatasetFile): seq<Reprs.Field> {
    [("id", Reprs.Str(f.id)), ("name", Reprs.Str(f.name)),
     ("file_type", Reprs.Str(f.fileType)), ("uri", Reprs.Str(f.uri))]
  }

  /** `str(f)` for a `DatasetFile`, the text a command-line filter pattern is
      searched in; `quote` is Python's `repr` of a string. */
  function FileRepr(f: DatasetFile, quote: string -> string): string {
    Reprs.SimpleRepr("DatasetFile", Reprs.MaxLenDisplay(Some(FILE_MAX_LEN_DISPLAY)), FileFields(f), quote)
  }

  /** The last three attributes of a `DatasetFile` sorted by name. */
  lemma FileFieldsTailSorted(nm: Reprs.Field, ft: Reprs.Field, uri: Reprs.Field)
    requires nm.0 == "name" && ft.0 == "file_type" && uri.0 == "uri"
    ensures Reprs.SortByName([nm, ft, uri]) == [ft, nm, uri]
  {
    assert Text.LexLe("file_type", "uri");
    assert !Text.LexLe("name", "file_type") && Text.LexLe("name", "uri");
    Reprs.SortCons(uri, []);
    Reprs.SortCons(ft, [uri]);
    Reprs.InsertFront(ft, uri, []);
    Reprs.SortCons(nm, [ft, uri]);
    Reprs.InsertBehind(nm, ft, [uri]);
    Reprs.InsertFront(nm, uri, []);
  }

  /** The attributes of a `DatasetFile` sorted by name: `file_type`, `id`,
      `name`, `uri`. */
  lemma FileFieldsSorted(f: DatasetFile)
    ensures Reprs.SortByName(FileFields(f)) ==
            [("file_type", Reprs.Str(f.fileType)), ("id", Reprs.Str(f.id)),
             ("name", Reprs.Str(f.name)), ("uri", Reprs.Str(f.uri))]
  {
    var id, nm, ft, uri := ("id", Reprs.Str(f.id)), ("name", Reprs.Str(f.name)),
                           ("file_type", Reprs.Str(f.fileType)), ("uri", Reprs.Str(f.uri));
    assert !Text.LexLe("id", "file_type") && Text.LexLe("id", "name");
    FileFieldsTailSorted(nm, ft, uri);
    assert FileFields(f) == [id] + [nm, ft, uri];
    Reprs.SortCons(id, [nm, ft, uri]);
    Reprs.InsertBehind(id, ft, [nm, uri]);
    Reprs.InsertFront(id, nm, [uri]);
  }

  /** Every attribute of a `DatasetFile` is listed. */
  lemma FileFieldsListed(f: DatasetFile)
    ensures Reprs.ListedFields(FileFields(f)) == Reprs.SortByName(FileFields(f))
  {
    FileFieldsSorted(f);
    var sorted := Reprs.SortByName(FileFields(f));
    assert "file_type"[..1] == "f" && "id"[..1] == "i" && "name"[..1] == "n" && "uri"[..1] == "u";
    Reprs.ListedOnlyAll(sorted);
  }

  /** The text a filter sees: the four attributes in name order, each quoted
      after truncation to 256 characters. */
  lemma FileReprText(f: DatasetFile, quote: string -> string)
    ensures FileRepr(f, quote) ==
            "DatasetFile(" + Text.Join(["file_type=" + quote(Reprs.Shown(f.fileType, 256)),
                                        "id=" + quote(Reprs.Shown(f.id, 256)),
                                        "name=" + quote(Reprs.Shown(f.name, 256)),
                                        "uri=" + quote(Reprs.Shown(f.uri, 256))], ", ") + ")"
  {
    FileFieldsListed(f);
    FileFieldsSorted(f);
    var es := Reprs.Entries(Reprs.ListedFields(FileFields(f)), 256, quote);
    assert "file_type" + "=" == "file_type=" && "id" + "=" == "id=" && "name" + "=" == "name=" && "uri" + "=" == "uri=";
    assert es == ["file_type=" + quote(Reprs.Shown(f.fileType, 256)),
                  "id=" + quote(Reprs.Shown(f.id, 256)),
                  "name=" + quote(Reprs.Shown(f.name, 256)),
                  "uri=" + quote(Reprs.Shown(f.uri, 256))];
    assert "DatasetFile" + "(" == "DatasetFile(";
  }
}
