/** Operating-system detection: the name, version and family of the host,
    read from the platform and from the os-release file. The platform
    queries and the file are parameters. */
module OsInfo {
  import opened Wrappers
  import opened Text

  /** The families detection can report. The source stores the family as a
      string; `FamilyName` gives it. */
  datatype Family = Ubuntu | Redhat | Unknown

  function FamilyName(f: Family): (s: string)
    ensures s in {"ubuntu", "redhat", "unknown"}
  {
    match f
    case Ubuntu => "ubuntu"
    case Redhat => "redhat"
    case Unknown => "unknown"
  }

  datatype OsInfo = OsInfo(name: string, version: string, family: Family)

  /** One os-release line: lines starting with `#` and lines without `=` are
      skipped; otherwise the trimmed line is split at its first `=` into a
      key and a value, and every `"` is stripped from both ends of the value. */
  function ParseLine(line: string): (r: Option<(string, string)>)
    ensures r.Some? <==> !StartsWith(line, "#") && '=' in line
    ensures r.Some? ==>
      var s := Strip(line);
      var key := r.value.0;
      && |key| < |s|
      && s[..|key|] == key
      && s[|key|] == '='
      && '=' !in key
      && r.value.1 == StripChars(s[|key| + 1..], {'"'})
  {
    if StartsWith(line, "#") || '=' !in line then
      None
    else
      var s := Strip(line);
      StripCharsSpec(line, Whitespace);
      var i := IndexOf(s, '=');
      Some((s[..i], StripChars(s[i + 1..], {'"'})))
  }

  /** The entry `e` assigns `key`. */
  predicate Assigns(e: Option<(string, string)>, key: string) {
    e.Some? && e.value.0 == key
  }

  /** The value the LAST entry assigning `key` gives it, if any entry does. */
  function LastValue(entries: seq<Option<(string, string)>>, key: string): (r: Option<string>)
    decreases |entries|
    ensures r.None? <==> forall i :: 0 <= i < |entries| ==> !Assigns(entries[i], key)
    ensures r.Some? ==>
      exists i :: 0 <= i < |entries| && entries[i] == Some((key, r.value))
        && forall j :: i < j < |entries| ==> !Assigns(entries[j], key)
  {
    if entries == [] then
      None
    else
      var later := LastValue(entries[1..], key);
      assert forall i :: 1 <= i < |entries| ==> entries[i] == entries[1..][i - 1];
      if later.Some? then
        var i :| 0 <= i < |entries[1..]| && entries[1..][i] == Some((key, later.value))
          && forall j :: i < j < |entries[1..]| ==> !Assigns(entries[1..][j], key);
        assert entries[i + 1] == Some((key, later.value));
        later
      else if Assigns(entries[0], key) then
        Some(entries[0].value.1)
      else
        None
  }

  /** The parsing loop: entries applied in order to the map built so far,
      each assignment overwriting an earlier one for the same key. */
  function Load(acc: map<string, string>, entries: seq<Option<(string, string)>>): map<string, string>
    decreases |entries|
  {
    if entries == [] then
      acc
    else
      var next := match entries[0] case None => acc case Some(kv) => acc[kv.0 := kv.1];
      Load(next, entries[1..])
  }

  /** After the loop a key holds the value of the last entry that assigns it,
      and keeps its earlier value when no entry does. */
  lemma {:induction false} LoadLastWins(acc: map<string, string>, entries: seq<Option<(string, string)>>, key: string)
    decreases |entries|
    ensures var m := Load(acc, entries);
      match LastValue(entries, key)
      case Some(v) => key in m && m[key] == v
      case None => (key in m <==> key in acc) && (key in acc ==> m[key] == acc[key])
  {
    if entries != [] {
      var next := match entries[0] case None => acc case Some(kv) => acc[kv.0 := kv.1];
      LoadLastWins(next, entries[1..], key);
    }
  }

  /** The parsed form of every line. */
  function Entries(lines: seq<string>): (es: seq<Option<(string, string)>>)
    ensures |es| == |lines|
    ensures forall i :: 0 <= i < |lines| ==> es[i] == ParseLine(lines[i])
  {
    seq(|lines|, i requires 0 <= i < |lines| => ParseLine(lines[i]))
  }

  /** The os-release file as a key/value map: a key is present exactly when
      some line assigns it, and holds the value of the last such line. */
  function ParseOsRelease(lines: seq<string>): (m: map<string, string>)
    ensures forall key :: key in m <==> LastValue(Entries(lines), key).Some?
    ensures forall key :: key in m ==> LastValue(Entries(lines), key) == Some(m[key])
  {
    var m := Load(map[], Entries(lines));
    forall key
      ensures key in m <==> LastValue(Entries(lines), key).Some?
      ensures key in m ==> LastValue(Entries(lines), key) == Some(m[key])
    {
      LoadLastWins(map[], Entries(lines), key);
    }
    m
  }

  /** Python's `d.get(key, default)`. */
  function Get(m: map<string, string>, key: string, default: string): string {
    if key in m then m[key] else default
  }

  /** The family a release declares through its `ID` and `ID_LIKE` values:
      "ubuntu" anywhere in either wins; otherwise "rhel" in either, or
      "redhat" in `ID_LIKE`, means the Red Hat family. */
  function Classify(id: string, idLike: string): (f: Family)
    ensures f == Ubuntu <==> Contains(id, "ubuntu") || Contains(idLike, "ubuntu")
    ensures f == Redhat <==>
      && !Contains(id, "ubuntu") && !Contains(idLike, "ubuntu")
      && (Contains(id, "rhel") || Contains(idLike, "rhel") || Contains(idLike, "redhat"))
  {
    if Contains(id, "ubuntu") || Contains(idLike, "ubuntu") then Ubuntu
    else if Contains(id, "rhel") || Contains(idLike, "rhel") || Contains(idLike, "redhat") then Redhat
    else Unknown
  }

  /** Detection: `system` and `release` are what `platform.system()` and
      `platform.release()` return; `osRelease` holds the lines of
      /etc/os-release, or is `None` when that file does not exist. */
  function Detect(system: string, release: string, osRelease: Option<seq<string>>): (info: OsInfo)
    ensures system != "Linux" ==> info == OsInfo(system, release, Unknown)
    ensures system == "Linux" && osRelease.None? ==> info == OsInfo("Linux", release, Unknown)
    ensures system == "Linux" && osRelease.Some? ==>
      var m := ParseOsRelease(osRelease.value);
      && info.name == Get(m, "PRETTY_NAME", "Linux")
      && info.version == Get(m, "VERSION_ID", "unknown")
      && info.family == Classify(Get(m, "ID", ""), Get(m, "ID_LIKE", ""))
  {
    if system != "Linux" then
      OsInfo(system, release, Unknown)
    else
      match osRelease
      case None => OsInfo("Linux", release, Unknown)
      case Some(lines) =>
        var m := ParseOsRelease(lines);
        OsInfo(
          Get(m, "PRETTY_NAME", "Linux"),
          Get(m, "VERSION_ID", "unknown"),
          Classify(Get(m, "ID", ""), Get(m, "ID_LIKE", "")))
  }
}
