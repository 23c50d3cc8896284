/** The text of storage paths, and the closed grammar of commit destinations. */
module StorePaths {
  import opened Basics
  import opened Identifiers
  import opened Outbox
  import opened StoreTypes

  // ---------------------------------------------------------------- splitting text

  /** The position of the first slash; the length when there is none. */
  function Slash(s: string): (i: nat)
    ensures i <= |s| && (forall j :: 0 <= j < i ==> s[j] != '/') && (i < |s| ==> s[i] == '/')
  {
    if s == "" || s[0] == '/' then 0 else 1 + Slash(s[1..])
  }

  lemma SlashAfter(head: string, rest: string)
    requires '/' !in head
    ensures Slash(head + "/" + rest) == |head|
  {
    var s := head + "/" + rest;
    assert s[|head|] == '/';
    assert forall j :: 0 <= j < |head| ==> s[j] == head[j];
  }

  /** `str::split('/')`. */
  function Split(s: string): (parts: seq<string>)
    ensures |parts| >= 1
    decreases |s|
  {
    var i := Slash(s);
    if i == |s| then [s] else [s[..i]] + Split(s[i + 1..])
  }

  function Joined(parts: seq<string>): string
    requires |parts| >= 1
  {
    if |parts| == 1 then parts[0] else parts[0] + "/" + Joined(parts[1..])
  }

  lemma SplitAtSlash(s: string)
    requires Slash(s) < |s|
    ensures Split(s)[0] == s[..Slash(s)] && Split(s)[1..] == Split(s[Slash(s) + 1..]) && |Split(s)| > 1
  {
  }

  lemma Regrouped(s: string, i: nat)
    requires i < |s| && s[i] == '/'
    ensures s[..i] + "/" + s[i + 1..] == s
  {
  }

  lemma {:induction false} JoinedSplit(s: string)
    ensures Joined(Split(s)) == s
    decreases |s|
  {
    if Slash(s) < |s| {
      SplitAtSlash(s);
      JoinedSplit(s[Slash(s) + 1..]);
      Regrouped(s, Slash(s));
    }
  }

  lemma SplitHead(head: string, rest: string)
    requires '/' !in head
    ensures Split(head + "/" + rest) == [head] + Split(rest)
  {
    var s := head + "/" + rest;
    SlashAfter(head, rest);
    assert s[..|head|] == head && s[|head| + 1..] == rest;
  }

  lemma {:induction false} SplitJoined(parts: seq<string>)
    requires |parts| >= 1 && forall i :: 0 <= i < |parts| ==> '/' !in parts[i]
    ensures Split(Joined(parts)) == parts
    decreases |parts|
  {
    if |parts| > 1 {
      SplitJoined(parts[1..]);
      SplitHead(parts[0], Joined(parts[1..]));
    }
  }

  /** `str::split_once`: the first occurrence of a pattern. */
  function FirstOccurrence(s: string, pattern: string, from: nat): (r: Option<nat>)
    requires from <= |s|
    ensures r.Some? ==> OccursAt(s, pattern, r.value) && from <= r.value && forall i :: from <= i < r.value ==>
      !OccursAt(s, pattern, i)
    ensures r.None? ==> forall i :: from <= i <= |s| ==> !OccursAt(s, pattern, i)
    decreases |s| - from
  {
    if OccursAt(s, pattern, from) then Some(from)
    else if from == |s| then None
    else FirstOccurrence(s, pattern, from + 1)
  }

  // ---------------------------------------------------------------- file names

  /** `storage_file_name`. */
  function FileName(key: RecordKey): string {
    key.eventId + "--" + key.routeId + ".json"
  }

  const JSON_SUFFIX: string := ".json"

  /** `valid_delivery_file_name`, together with the key it reads. */
  function ParseFileName(value: string): Option<RecordKey> {
    if |value| < 5 || value[|value| - 5..] != JSON_SUFFIX then None
    else
      var stem := value[..|value| - 5];
      var at := FirstOccurrence(stem, "--", 0);
      if at.None? then None
      else
        var eventId, routeId := stem[..at.value], stem[at.value + 2..];
        if Contains(routeId, "--") || !IsSha256(eventId) || !ValidId(routeId) then None
        else
          RecognisersAgree(routeId);
          Some(RecordKey(eventId, routeId))
  }

  lemma ParseFileNameSound(value: string)
    ensures ParseFileName(value).Some? ==> FileName(ParseFileName(value).value) == value
  {
    if ParseFileName(value).Some? {
      var stem := value[..|value| - 5];
      var at := FirstOccurrence(stem, "--", 0).value;
      assert stem[at..at + 2] == "--";
      assert stem == stem[..at] + "--" + stem[at + 2..];
      assert value == stem + JSON_SUFFIX;
    }
  }

  /** A digest has no dash, so the separator of a file name is the first double dash. */
  lemma ParseFileNameComplete(key: RecordKey)
    ensures ParseFileName(FileName(key)) == Some(key)
  {
    var value := FileName(key);
    var stem := key.eventId + "--" + key.routeId;
    assert value == stem + JSON_SUFFIX;
    assert value[..|value| - 5] == stem;
    assert stem[64..66] == "--";
    assert OccursAt(stem, "--", 64);
    forall i | 0 <= i < 64 ensures !OccursAt(stem, "--", i) {
      assert IsLowerHex(key.eventId[i]);
      assert stem[i] == key.eventId[i];
      if i + 2 <= |stem| { assert stem[i..i + 2][0] == stem[i]; }
    }
    var at := FirstOccurrence(stem, "--", 0);
    assert at == Some(64);
    assert stem[..64] == key.eventId && stem[66..] == key.routeId;
    RecognisersAgree(key.routeId);
  }

  // ---------------------------------------------------------------- paths

  /** The parts of a destination path. */
  function Parts(path: Path): seq<string>
    requires path.Final()
  {
    match path
    case SourceStateFile => ["source-state.json"]
    case MeasurementStateFile(id) => ["measurements", id, "state.json"]
    case PendingFile(SourceOwner, key) => ["source-outbox", FileName(key)]
    case PendingFile(MeasurementOwner(id), key) => ["measurements", id, "outbox", FileName(key)]
    case DeadLetterFile(SourceOwner, key) => ["dead-letters", FileName(key)]
    case DeadLetterFile(MeasurementOwner(id), key) => ["measurements", id, "dead-letters", FileName(key)]
  }

  /** `pending_path`, `dead_letter_path` and the state document paths, as text. */
  function PathText(path: Path): string
    requires path.Final()
  {
    Joined(Parts(path))
  }

  /** `validate_final_path`, together with the path it accepts. */
  function ParseParts(parts: seq<string>): (r: Option<Path>)
    ensures r.Some? ==> r.value.Final()
  {
    if |parts| == 1 then if parts[0] == "source-state.json" then Some(SourceStateFile) else None
    else if |parts| == 2 then
      var key := ParseFileName(parts[1]);
      if key.None? then None
      else if parts[0] == "source-outbox" then Some(PendingFile(SourceOwner, key.value))
      else if parts[0] == "dead-letters" then Some(DeadLetterFile(SourceOwner, key.value))
      else None
    else if (|parts| == 3 || |parts| == 4) && parts[0] == "measurements" && IsNodeId(parts[1]) then
      if |parts| == 3 then if parts[2] == "state.json" then Some(MeasurementStateFile(parts[1])) else None
      else
        var key := ParseFileName(parts[3]);
        if key.None? then None
        else if parts[2] == "outbox" then Some(PendingFile(MeasurementOwner(parts[1]), key.value))
        else if parts[2] == "dead-letters" then Some(DeadLetterFile(MeasurementOwner(parts[1]), key.value))
        else None
    else None
  }

  function ParsePath(text: string): (r: Option<Path>)
    ensures r.Some? ==> r.value.Final()
  {
    ParseParts(Split(text))
  }

  lemma TwoPartsSound(parts: seq<string>)
    requires |parts| == 2
    ensures ParseParts(parts).Some? ==> Parts(ParseParts(parts).value) == parts
  {
    ParseFileNameSound(parts[1]);
    assert parts == [parts[0], parts[1]];
  }

  lemma FourPartsSound(parts: seq<string>)
    requires |parts| == 4
    ensures ParseParts(parts).Some? ==> Parts(ParseParts(parts).value) == parts
  {
    ParseFileNameSound(parts[3]);
    assert parts == [parts[0], parts[1], parts[2], parts[3]];
  }

  lemma ParsePartsSound(parts: seq<string>)
    ensures ParseParts(parts).Some? ==> Parts(ParseParts(parts).value) == parts
  {
    if |parts| == 2 {
      TwoPartsSound(parts);
    } else if |parts| == 4 {
      FourPartsSound(parts);
    } else if |parts| == 3 {
      assert parts == [parts[0], parts[1], parts[2]];
    } else if |parts| == 1 {
      assert parts == [parts[0]];
    }
  }

  lemma NodeIdHasNoSlash(id: NodeId)
    ensures '/' !in id
  {
    forall i | 0 <= i < |id| ensures id[i] != '/' {
      assert IsAlphanumeric(id[i]) || IsSeparator(id[i]);
    }
  }

  lemma FileNameHasNoSlash(key: RecordKey)
    ensures '/' !in FileName(key)
  {
    NodeIdHasNoSlash(key.routeId);
    assert forall i :: 0 <= i < |key.eventId| ==> IsLowerHex(key.eventId[i]);
    assert '/' !in key.eventId;
  }

  lemma PartsHaveNoSlash(path: Path)
    requires path.Final()
    ensures forall i :: 0 <= i < |Parts(path)| ==> '/' !in Parts(path)[i]
  {
    match path {
      case MeasurementStateFile(id) => NodeIdHasNoSlash(id);
      case PendingFile(owner, key) =>
        FileNameHasNoSlash(key);
        if owner.MeasurementOwner? { NodeIdHasNoSlash(owner.id); }
      case DeadLetterFile(owner, key) =>
        FileNameHasNoSlash(key);
        if owner.MeasurementOwner? { NodeIdHasNoSlash(owner.id); }
      case _ =>
    }
  }

  lemma ParseSourceQueue(key: RecordKey)
    ensures ParseParts(["source-outbox", FileName(key)]) == Some(PendingFile(SourceOwner, key))
    ensures ParseParts(["dead-letters", FileName(key)]) == Some(DeadLetterFile(SourceOwner, key))
  {
    ParseFileNameComplete(key);
  }

  lemma ParseMeasurementQueue(id: NodeId, key: RecordKey)
    ensures ParseParts(["measurements", id, "outbox", FileName(key)]) == Some(PendingFile(MeasurementOwner(id), key))
    ensures ParseParts(["measurements", id, "dead-letters", FileName(key)])
      == Some(DeadLetterFile(MeasurementOwner(id), key))
  {
    ParseFileNameComplete(key);
  }

  lemma ParsePartsComplete(path: Path)
    requires path.Final()
    ensures ParseParts(Parts(path)) == Some(path)
  {
    match path {
      case PendingFile(SourceOwner, key) => ParseSourceQueue(key);
      case DeadLetterFile(SourceOwner, key) => ParseSourceQueue(key);
      case PendingFile(MeasurementOwner(id), key) => ParseMeasurementQueue(id, key);
      case DeadLetterFile(MeasurementOwner(id), key) => ParseMeasurementQueue(id, key);
      case _ =>
    }
  }

  /** Where every state document, pending record and dead letter lives. */
  lemma PathTextSpelledOut(id: NodeId, key: RecordKey)
    ensures
      var name := key.eventId + "--" + key.routeId + ".json";
      && PathText(SourceStateFile) == "source-state.json"
      && PathText(MeasurementStateFile(id)) == "measurements" + "/" + id + "/" + "state.json"
      && PathText(PendingFile(SourceOwner, key)) == "source-outbox" + "/" + name
      && PathText(DeadLetterFile(SourceOwner, key)) == "dead-letters" + "/" + name
      && PathText(PendingFile(MeasurementOwner(id), key)) == "measurements" + "/" + id + "/" + "outbox" + "/" + name
      && PathText(DeadLetterFile(MeasurementOwner(id), key))
         == "measurements" + "/" + id + "/" + "dead-letters" + "/" + name
  {
    TwoJoined("source-outbox", FileName(key));
    TwoJoined("dead-letters", FileName(key));
    ThreeJoined("measurements", id, "state.json");
    FourJoined("measurements", id, "outbox", FileName(key));
    FourJoined("measurements", id, "dead-letters", FileName(key));
  }

  lemma TwoJoined(a: string, b: string)
    ensures Joined([a, b]) == a + "/" + b
  {
    assert [a, b][1..] == [b];
  }

  lemma ThreeJoined(a: string, b: string, c: string)
    ensures Joined([a, b, c]) == a + "/" + b + "/" + c
  {
    assert [a, b, c][1..] == [b, c];
    TwoJoined(b, c);
    assert a + "/" + (b + "/" + c) == a + "/" + b + "/" + c;
  }

  lemma FourJoined(a: string, b: string, c: string, d: string)
    ensures Joined([a, b, c, d]) == a + "/" + b + "/" + c + "/" + d
  {
    assert [a, b, c, d][1..] == [b, c, d];
    ThreeJoined(b, c, d);
    assert a + "/" + (b + "/" + c + "/" + d) == a + "/" + b + "/" + c + "/" + d;
  }

  /** Every destination's text parses back to that destination. */
  lemma PathRoundTrip(path: Path)
    requires path.Final()
    ensures ParsePath(PathText(path)) == Some(path)
  {
    PartsHaveNoSlash(path);
    SplitJoined(Parts(path));
    ParsePartsComplete(path);
  }

  /** The validator accepts exactly the texts of destinations. */
  lemma GrammarIsClosed(text: string)
    ensures ParsePath(text).Some? <==> exists path: Path :: path.Final() && PathText(path) == text
    ensures ParsePath(text).Some? ==> PathText(ParsePath(text).value) == text
  {
    if ParsePath(text).Some? {
      ParsePartsSound(Split(text));
      JoinedSplit(text);
      assert PathText(ParsePath(text).value) == text;
    }
    if path: Path :| path.Final() && PathText(path) == text {
      PathRoundTrip(path);
    }
  }

  /** Distinct state documents, pending records and dead letters never share a file. */
  lemma PathsAreInjective(a: Path, b: Path)
    requires a.Final() && b.Final()
    ensures PathText(a) == PathText(b) <==> a == b
  {
    PathRoundTrip(a);
    PathRoundTrip(b);
  }

  /** `ManifestPath::new`: nonempty, relative, no backslash, no empty or dot part. */
  predicate IsManifestPath(text: string) {
    && text != "" && text[0] != '/' && '\\' !in text
    && forall i :: 0 <= i < |Split(text)| ==> Split(text)[i] != "" && Split(text)[i] != "." && Split(text)[i] != ".."
  }

  predicate IsStaged(text: string) {
    |text| >= 7 && text[..7] == "staged/"
  }

  /** A part that a manifest path may contain. */
  predicate PlainPart(part: string) {
    part != "" && part[0] != '.' && '\\' !in part && '/' !in part
  }

  lemma NodeIdIsPlain(id: NodeId)
    ensures PlainPart(id)
  {
    forall i | 0 <= i < |id| ensures id[i] != '/' && id[i] != '\\' && id[i] != '.' {
      assert IsAlphanumeric(id[i]) || IsSeparator(id[i]);
    }
  }

  lemma FileNameIsPlain(key: RecordKey)
    ensures PlainPart(FileName(key))
  {
    FileNameHasNoSlash(key);
    NodeIdIsPlain(key.routeId);
    assert forall i :: 0 <= i < |key.eventId| ==> IsLowerHex(key.eventId[i]);
    assert FileName(key)[0] == key.eventId[0];
  }

  predicate AllPlain(parts: seq<string>) {
    forall i :: 0 <= i < |parts| ==> PlainPart(parts[i])
  }

  lemma FixedPartsArePlain()
    ensures PlainPart("source-state.json") && PlainPart("state.json") && PlainPart("measurements")
    ensures PlainPart("source-outbox") && PlainPart("outbox") && PlainPart("dead-letters")
    ensures "source-state.json" != "staged" && "measurements" != "staged" && "source-outbox" != "staged"
      && "dead-letters" != "staged"
  {
    assert "source-state.json"[1] == 'o' && "source-outbox"[1] == 'o' && "staged"[1] == 't';
  }

  lemma PartsArePlain(path: Path)
    requires path.Final()
    ensures AllPlain(Parts(path)) && Parts(path)[0] != "staged"
  {
    FixedPartsArePlain();
    match path {
      case MeasurementStateFile(id) => NodeIdIsPlain(id);
      case PendingFile(SourceOwner, key) => FileNameIsPlain(key);
      case DeadLetterFile(SourceOwner, key) => FileNameIsPlain(key);
      case PendingFile(MeasurementOwner(id), key) => FileNameIsPlain(key); NodeIdIsPlain(id);
      case DeadLetterFile(MeasurementOwner(id), key) => FileNameIsPlain(key); NodeIdIsPlain(id);
      case _ =>
    }
  }

  lemma {:induction false} JoinedPlain(parts: seq<string>)
    requires |parts| >= 1 && AllPlain(parts)
    ensures Joined(parts) != "" && Joined(parts)[0] != '/' && '\\' !in Joined(parts)
    decreases |parts|
  {
    assert PlainPart(parts[0]);
    if |parts| > 1 {
      JoinedPlain(parts[1..]);
    }
  }

  lemma PlainJoinIsManifestPath(parts: seq<string>)
    requires |parts| >= 1 && AllPlain(parts)
    ensures IsManifestPath(Joined(parts))
    ensures IsStaged(Joined(parts)) ==> parts[0] == "staged"
  {
    JoinedPlain(parts);
    assert forall i :: 0 <= i < |parts| ==> PlainPart(parts[i]);
    SplitJoined(parts);
    if IsStaged(Joined(parts)) {
      StagedHead(Joined(parts));
    }
  }

  lemma StagedHead(text: string)
    requires IsStaged(text)
    ensures Split(text)[0] == "staged"
  {
    assert text[..7] == "staged" + "/";
    assert text == text[..7] + text[7..];
    assert text == "staged" + "/" + text[7..];
    SlashAfter("staged", text[7..]);
    assert text[..6] == text[..7][..6];
  }

  /** Destinations are valid manifest paths, and never in the reserved staging directory. */
  lemma DestinationsAreManifestPaths(path: Path)
    requires path.Final()
    ensures IsManifestPath(PathText(path)) && !IsStaged(PathText(path))
  {
    PartsArePlain(path);
    PlainJoinIsManifestPath(Parts(path));
  }
}
