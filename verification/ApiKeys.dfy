/** The API-key specification string and the key table built from it. */
module ApiKeys {
  import opened Prelude
  import opened Text
  import opened KeySyntax

  type Keys = map<string, Principal>

  // ---------- the whole specification ----------

  const MALFORMED_WARNING := "ignored malformed API key entry (want label:secret:role)"
  const INVALID_WARNING := "ignored API key with empty secret or invalid role: "
  const DISABLED_WARNING := "AMANKAN_API_KEYS not set — API authentication is DISABLED (open access)"

  function With(keys: Keys, entry: EntryResult): Keys {
    if entry.Key? then keys[entry.secret := entry.principal] else keys
  }

  function Complaint(entry: EntryResult): seq<string> {
    match entry
    case Malformed => [MALFORMED_WARNING]
    case Invalid(name) => [INVALID_WARNING + name]
    case _ => []
  }

  /** The key table after these entries: a later entry for a secret replaces an earlier. */
  function Table(segments: seq<string>): Keys {
    if segments == [] then map[] else
    var n := |segments| - 1;
    With(Table(segments[..n]), ParseEntry(segments[n]))
  }

  /** The complaints about entries that were passed over, in order. */
  function Complaints(segments: seq<string>): seq<string> {
    if segments == [] then [] else
    var n := |segments| - 1;
    Complaints(segments[..n]) + Complaint(ParseEntry(segments[n]))
  }

  function Answer(keys: Keys, secret: string): Option<Principal> {
    if secret in keys then Some(keys[secret]) else None
  }

  lemma TableSnoc(segments: seq<string>, x: string)
    ensures Table(segments + [x]) == With(Table(segments), ParseEntry(x))
    ensures Complaints(segments + [x]) == Complaints(segments) + Complaint(ParseEntry(x))
  {
    var all := segments + [x];
    assert all[..|all| - 1] == segments;
  }

  /** The last of the entries that make a key of this secret makes this one. */
  ghost predicate LastGiven(entries: seq<string>, secret: string, p: Principal) {
    exists i :: && 0 <= i < |entries| && Gives(entries[i], secret, p)
                && forall j, q :: i < j < |entries| ==> !Gives(entries[j], secret, q)
  }

  lemma StillLast(before: seq<string>, entry: string, secret: string, p: Principal)
    requires LastGiven(before, secret, p) && forall q :: !Gives(entry, secret, q)
    ensures LastGiven(before + [entry], secret, p)
  {
    var all := before + [entry];
    var i :| && 0 <= i < |before| && Gives(before[i], secret, p)
             && forall j, q :: i < j < |before| ==> !Gives(before[j], secret, q);
    assert all[i] == before[i] && forall j :: i < j < |all| ==> all[j] == if j < |before| then before[j] else entry;
  }

  lemma NowLast(before: seq<string>, entry: string, secret: string, p: Principal)
    requires Gives(entry, secret, p)
    ensures LastGiven(before + [entry], secret, p)
  {
    assert (before + [entry])[|before|] == entry;
  }

  ghost predicate NoneGiven(entries: seq<string>, secret: string) {
    forall i, q :: 0 <= i < |entries| ==> !Gives(entries[i], secret, q)
  }

  lemma StillNone(before: seq<string>, entry: string, secret: string)
    requires NoneGiven(before, secret) && forall q :: !Gives(entry, secret, q)
    ensures NoneGiven(before + [entry], secret)
  {
  }

  lemma {:induction false} TableGives(entries: seq<string>, secret: string)
    ensures if secret in Table(entries) then LastGiven(entries, secret, Table(entries)[secret])
            else NoneGiven(entries, secret)
  {
    if entries == [] {
    } else {
      var before, entry := entries[..|entries| - 1], entries[|entries| - 1];
      TableGives(before, secret);
      assert entries == before + [entry];
      var parsed := ParseEntry(entry);
      if parsed.Key? && parsed.secret == secret {
        EntryGivesIff(entry, secret, parsed.principal);
        NowLast(before, entry, secret, parsed.principal);
      } else {
        forall q ensures !Gives(entry, secret, q) {
          EntryGivesIff(entry, secret, q);
        }
        if secret in Table(before) {
          StillLast(before, entry, secret, Table(before)[secret]);
        } else {
          StillNone(before, entry, secret);
        }
      }
    }
  }

  lemma {:induction false} TrimmedTwice(s: string)
    ensures Trim(Trim(s)) == Trim(s)
  {
    var pre, post := TrimParts(s);
    TrimOfTrimmed(TrimLeft(s));
    TrimOfTrimmed(s);
  }

  /** Keys are real: a trimmed secret that is not empty, and a role. */
  lemma GivenIsReal(entry: string, secret: string, p: Principal)
    requires Gives(entry, secret, p)
    ensures secret != "" && Trim(secret) == secret && Trim(p.name) == p.name && p.role != NoRole
  {
    var name, sec, role :| GivesAs(entry, name, sec, role, secret, p);
    TrimmedTwice(sec);
    TrimmedTwice(name);
  }

  lemma TableIsReal(entries: seq<string>, secret: string)
    requires secret in Table(entries)
    ensures var p := Table(entries)[secret];
            secret != "" && Trim(secret) == secret && Trim(p.name) == p.name && p.role != NoRole
  {
    TableGives(entries, secret);
    var i :| 0 <= i < |entries| && Gives(entries[i], secret, Table(entries)[secret]);
    GivenIsReal(entries[i], secret, Table(entries)[secret]);
  }

  lemma ManyColons(entry: string)
    requires |Split(entry, ':')| > 2
    ensures !ParseEntry(entry).Malformed?
    ensures ParseEntry(entry).Invalid? ==> ParseEntry(entry).name == Trim(Split(entry, ':')[0])
  {
    var name, sec, role := ThreeFields(entry);
    SpelledFields(name, sec, role);
    TrimOfTrimmed(name);
    SplitAtSeparator(name, sec + ":" + role, ':');
    SplitPlain(name, ':');
    assert Spelled(name, sec, role) == name + [':'] + (sec + ":" + role);
  }

  /** One warning for an entry that is neither blank nor a key, by its text. */
  lemma WarningIs(entry: string)
    ensures Complaint(ParseEntry(entry)) ==
              if Trim(entry) == "" || (exists secret, p :: Gives(entry, secret, p)) then []
              else if |Split(entry, ':')| <= 2 then ["ignored malformed API key entry (want label:secret:role)"]
              else ["ignored API key with empty secret or invalid role: " + Trim(Split(entry, ':')[0])]
  {
    var parsed := ParseEntry(entry);
    if parsed.Key? {
      EntryGivesIff(entry, parsed.secret, parsed.principal);
    }
    if secret, p :| Gives(entry, secret, p) {
      EntryGivesIff(entry, secret, p);
    }
    if |Split(entry, ':')| <= 2 {
      FewColons(entry);
    } else {
      ManyColons(entry);
    }
  }

  lemma KeysByText(entries: seq<string>)
    ensures forall secret :: secret in Table(entries) ==>
              && secret != "" && Trim(secret) == secret
              && Trim(Table(entries)[secret].name) == Table(entries)[secret].name
              && Table(entries)[secret].role != NoRole
    ensures forall secret :: secret in Table(entries) ==> LastGiven(entries, secret, Table(entries)[secret])
    ensures forall secret, i, p :: secret !in Table(entries) && 0 <= i < |entries| ==> !Gives(entries[i], secret, p)
  {
    forall secret | secret in Table(entries)
      ensures secret != "" && Trim(secret) == secret
      ensures Trim(Table(entries)[secret].name) == Table(entries)[secret].name
      ensures Table(entries)[secret].role != NoRole
    {
      TableIsReal(entries, secret);
    }
    forall secret ensures secret in Table(entries) ==> LastGiven(entries, secret, Table(entries)[secret]) {
      TableGives(entries, secret);
    }
    forall secret, i, p | secret !in Table(entries) && 0 <= i < |entries| ensures !Gives(entries[i], secret, p) {
      TableGives(entries, secret);
    }
  }

  method ParseKeys(rawSpec: string) returns (keys: Keys, enabled: bool, warnings: seq<string>)
    ensures keys == Table(Split(Trim(rawSpec), ','))
    ensures enabled <==> keys != map[]
    ensures forall secret :: secret in keys ==>
              && secret != "" && Trim(secret) == secret
              && Trim(keys[secret].name) == keys[secret].name && keys[secret].role != NoRole
    ensures forall secret :: secret in keys ==> LastGiven(Split(Trim(rawSpec), ','), secret, keys[secret])
    ensures forall secret, i, p :: secret !in keys && 0 <= i < |Split(Trim(rawSpec), ',')| ==>
              !Gives(Split(Trim(rawSpec), ',')[i], secret, p)
    ensures warnings == if Trim(rawSpec) == "" then [DISABLED_WARNING] else Complaints(Split(Trim(rawSpec), ','))
  {
    keys, warnings := map[], [];
    var spec := Trim(rawSpec);
    if spec == "" {
      assert ParseEntry("") == Blank;
      assert Split(spec, ',') == [""] && [""][..0] == [];
      KeysByText([""]);
      return map[], false, [DISABLED_WARNING];
    }
    var entries := Split(spec, ',');
    for i := 0 to |entries|
      invariant keys == Table(entries[..i]) && warnings == Complaints(entries[..i])
    {
      assert entries[..i + 1] == entries[..i] + [entries[i]];
      TableSnoc(entries[..i], entries[i]);
      var entry := ParseEntry(entries[i]);
      match entry
      case Blank =>
      case Malformed =>
        warnings := warnings + [MALFORMED_WARNING];
      case Invalid(name) =>
        warnings := warnings + [INVALID_WARNING + name];
      case Key(secret, p) =>
        keys := keys[secret := p];
    }
    assert entries[..|entries|] == entries;
    KeysByText(entries);
    enabled := |keys| > 0;
  }

  /** Compares the secret with every configured key. */
  method Lookup(keys: Keys, secret: string) returns (found: Option<Principal>)
    ensures found == Answer(keys, secret)
  {
    found := None;
    var todo := keys.Keys;
    while todo != {}
      invariant todo <= keys.Keys
      invariant found == if secret in keys && secret !in todo then Some(keys[secret]) else None
    {
      var k :| k in todo;
      if k == secret {
        found := Some(keys[k]);
      }
      todo := todo - {k};
    }
  }

  // ---------- trimming the specification changes nothing ----------

  lemma {:induction false} SplitTrimLeft(s: string)
    ensures var parts := Split(s, ','); Split(TrimLeft(s), ',') == [TrimLeft(parts[0])] + parts[1..]
  {
    if s != [] && Space(s[0]) {
      SplitTrimLeft(s[1..]);
      var rest := Split(s[1..], ',');
      assert ([s[0]] + rest[0])[1..] == rest[0];
    }
  }

  lemma {:induction false} SplitSnocPlain(s: string, c: char)
    requires c != ','
    ensures var parts := Split(s, ','); var n := |parts| - 1;
            Split(s + [c], ',') == parts[..n] + [parts[n] + [c]]
  {
    if s == [] {
      assert s + [c] == [c];
      SplitPlain([c], ',');
    } else {
      assert (s + [c])[1..] == s[1..] + [c];
      SplitSnocPlain(s[1..], c);
      if |Split(s[1..], ',')| == 1 && s[0] != ',' {
        Regroup([s[0]], Split(s[1..], ',')[0], [c]);
      }
    }
  }

  lemma SplitSnoc(s: string, c: char)
    ensures var parts := Split(s, ','); var n := |parts| - 1;
            Split(s + [c], ',') == if c == ',' then parts + [[]] else parts[..n] + [parts[n] + [c]]
  {
    if c == ',' {
      SplitAtSeparator(s, [], ',');
      assert s + [c] + [] == s + [c];
    } else {
      SplitSnocPlain(s, c);
    }
  }

  lemma {:induction false} SplitTrimRight(s: string)
    ensures var parts := Split(s, ','); var n := |parts| - 1;
            Split(TrimRight(s), ',') == parts[..n] + [TrimRight(parts[n])]
  {
    if s == [] {
    } else {
      var n := |s| - 1;
      assert s == s[..n] + [s[n]];
      SplitSnoc(s[..n], s[n]);
      var parts := Split(s[..n], ',');
      if Space(s[n]) {
        SplitTrimRight(s[..n]);
        assert (parts[|parts| - 1] + [s[n]])[..|parts[|parts| - 1]|] == parts[|parts| - 1];
      }
    }
  }

  lemma {:induction false} SnocCong(front: seq<string>, front': seq<string>, x: string, x': string)
    requires Table(front) == Table(front') && Complaints(front) == Complaints(front')
    requires ParseEntry(x) == ParseEntry(x')
    ensures Table(front + [x]) == Table(front' + [x']) && Complaints(front + [x]) == Complaints(front' + [x'])
  {
    TableSnoc(front, x);
    TableSnoc(front', x');
  }

  lemma {:induction false} Replaced(segments: seq<string>, i: nat, x: string)
    requires i < |segments|
    ensures var n := |segments| - 1;
            && segments == segments[..n] + [segments[n]]
            && segments[i := x] == if i < n then segments[..n][i := x] + [segments[n]] else segments[..n] + [x]
  {
  }

  lemma {:induction false} TableOneChanged(segments: seq<string>, i: nat, x: string)
    requires i < |segments| && ParseEntry(x) == ParseEntry(segments[i])
    ensures Table(segments[i := x]) == Table(segments)
    ensures Complaints(segments[i := x]) == Complaints(segments)
    decreases |segments|
  {
    var n := |segments| - 1;
    Replaced(segments, i, x);
    if i == n {
      SnocCong(segments[..n], segments[..n], x, segments[n]);
    } else {
      TableOneChanged(segments[..n], i, x);
      SnocCong(segments[..n][i := x], segments[..n], segments[n], segments[n]);
    }
  }

  lemma LastReplaced(segments: seq<string>, x: string)
    requires segments != []
    ensures segments[..|segments| - 1] + [x] == segments[|segments| - 1 := x]
  {
  }

  lemma FirstReplaced(segments: seq<string>, x: string)
    requires segments != []
    ensures [x] + segments[1..] == segments[0 := x]
  {
  }

  lemma TableFirstChanged(segments: seq<string>, x: string)
    requires segments != [] && ParseEntry(x) == ParseEntry(segments[0])
    ensures Table([x] + segments[1..]) == Table(segments)
    ensures Complaints([x] + segments[1..]) == Complaints(segments)
  {
    FirstReplaced(segments, x);
    TableOneChanged(segments, 0, x);
  }

  lemma TrimLeftSameTable(spec: string)
    ensures Table(Split(TrimLeft(spec), ',')) == Table(Split(spec, ','))
    ensures Complaints(Split(TrimLeft(spec), ',')) == Complaints(Split(spec, ','))
  {
    var parts := Split(spec, ',');
    SplitTrimLeft(spec);
    TrimOfTrimmed(parts[0]);
    TableFirstChanged(parts, TrimLeft(parts[0]));
  }

  lemma TrimRightSameTable(spec: string)
    ensures Table(Split(TrimRight(spec), ',')) == Table(Split(spec, ','))
    ensures Complaints(Split(TrimRight(spec), ',')) == Complaints(Split(spec, ','))
  {
    var parts := Split(spec, ',');
    var n := |parts| - 1;
    SplitTrimRight(spec);
    TrimOfTrimmed(parts[n]);
    LastReplaced(parts, TrimRight(parts[n]));
    TableOneChanged(parts, n, TrimRight(parts[n]));
  }

  lemma TrimmedSpecSameTable(spec: string)
    ensures Table(Split(Trim(spec), ',')) == Table(Split(spec, ','))
    ensures Complaints(Split(Trim(spec), ',')) == Complaints(Split(spec, ','))
  {
    TrimLeftSameTable(spec);
    TrimRightSameTable(TrimLeft(spec));
  }

  // ---------- round trip ----------

  datatype KeySpec = KeySpec(name: string, secret: string, role: Role)

  /** Fields free of separators and surrounding space, a real secret and a real role. */
  predicate Printable(k: KeySpec) {
    && Plain(k.name, ',') && Plain(k.name, ':') && Trim(k.name) == k.name
    && Plain(k.secret, ',') && Plain(k.secret, ':') && Trim(k.secret) == k.secret
    && k.secret != "" && k.role != NoRole
  }

  function Print(k: KeySpec): string {
    k.name + ":" + (k.secret + ":" + RoleName(k.role))
  }

  lemma PrintParses(k: KeySpec)
    requires Printable(k)
    ensures ParseEntry(Print(k)) == Key(k.secret, Principal(k.name, k.role))
  {
    var s, rest, word := Print(k), k.secret + ":" + RoleName(k.role), RoleName(k.role);
    TrimmedEnds(k.name);
    TrimmedEnds(s);
    assert s[|s| - 1] == word[|word| - 1];
    assert s[0] == if k.name == [] then ':' else k.name[0];
    assert s == k.name + [':'] + rest && rest == k.secret + [':'] + word;
    CutPlain(k.name, rest, ':');
    CutPlain(k.secret, word, ':');
    RoleRoundTrip(k.role);
  }

  // A specification line: printed entries with anything malformed in between.

  datatype Segment = Entry(spec: KeySpec) | Junk(text: string)

  predicate Acceptable(seg: Segment) {
    match seg
    case Entry(k) => Printable(k)
    case Junk(text) => Plain(text, ',') && !ParseEntry(text).Key?
  }

  function Written(seg: Segment): string {
    match seg
    case Entry(k) => Print(k)
    case Junk(text) => text
  }

  function Texts(segs: seq<Segment>): seq<string> {
    seq(|segs|, i requires 0 <= i < |segs| => Written(segs[i]))
  }

  function SpelledOut(segs: seq<Segment>): string {
    if segs == [] then "" else Join(Texts(segs), ',')
  }

  /** The last entry carrying a secret. */
  function LastFor(segs: seq<Segment>, secret: string): Option<Principal> {
    if segs == [] then None else
    var n := |segs| - 1;
    match segs[n]
    case Entry(k) => if k.secret == secret then Some(Principal(k.name, k.role)) else LastFor(segs[..n], secret)
    case Junk(_) => LastFor(segs[..n], secret)
  }

  function JunkOnly(segs: seq<Segment>): seq<string> {
    if segs == [] then [] else
    var n := |segs| - 1;
    match segs[n]
    case Entry(_) => JunkOnly(segs[..n])
    case Junk(text) => JunkOnly(segs[..n]) + [text]
  }

  lemma LastSegment(segs: seq<Segment>, seg: Segment, secret: string)
    requires Acceptable(seg)
    requires Answer(Table(Texts(segs)), secret) == LastFor(segs, secret)
    ensures Answer(Table(Texts(segs) + [Written(seg)]), secret) == LastFor(segs + [seg], secret)
  {
    assert (segs + [seg])[..|segs|] == segs;
    TableSnoc(Texts(segs), Written(seg));
    if seg.Entry? {
      PrintParses(seg.spec);
    }
  }

  lemma TextsSnoc(segs: seq<Segment>)
    requires segs != []
    ensures var n := |segs| - 1;
            segs[..n] + [segs[n]] == segs && Texts(segs[..n]) + [Written(segs[n])] == Texts(segs)
  {
  }

  lemma {:induction false} TableOfTexts(segs: seq<Segment>, secret: string)
    requires forall seg <- segs :: Acceptable(seg)
    ensures Answer(Table(Texts(segs)), secret) == LastFor(segs, secret)
  {
    if segs == [] {
    } else {
      var n := |segs| - 1;
      TableOfTexts(segs[..n], secret);
      TextsSnoc(segs);
      LastSegment(segs[..n], segs[n], secret);
    }
  }

  lemma EntryWithoutComplaint(k: KeySpec)
    requires Printable(k)
    ensures Complaint(ParseEntry(Print(k))) == []
  {
    PrintParses(k);
  }

  lemma JunkSnoc(segs: seq<Segment>, seg: Segment)
    ensures JunkOnly(segs + [seg]) == if seg.Junk? then JunkOnly(segs) + [seg.text] else JunkOnly(segs)
  {
    assert (segs + [seg])[..|segs|] == segs;
  }

  lemma LastComplaint(segs: seq<Segment>, seg: Segment)
    requires Acceptable(seg)
    requires Complaints(Texts(segs)) == Complaints(JunkOnly(segs))
    ensures Complaints(Texts(segs) + [Written(seg)]) == Complaints(JunkOnly(segs + [seg]))
  {
    JunkSnoc(segs, seg);
    TableSnoc(Texts(segs), Written(seg));
    if seg.Entry? {
      EntryWithoutComplaint(seg.spec);
    } else {
      TableSnoc(JunkOnly(segs), seg.text);
    }
  }

  lemma {:induction false} ComplaintsOfTexts(segs: seq<Segment>)
    requires forall seg <- segs :: Acceptable(seg)
    ensures Complaints(Texts(segs)) == Complaints(JunkOnly(segs))
  {
    if segs == [] {
    } else {
      var n := |segs| - 1;
      ComplaintsOfTexts(segs[..n]);
      TextsSnoc(segs);
      LastComplaint(segs[..n], segs[n]);
    }
  }

  lemma PrintPlain(k: KeySpec)
    requires Printable(k)
    ensures Plain(Print(k), ',')
  {
    assert Plain(RoleName(k.role), ',');
  }

  lemma TextsSurvive(segs: seq<Segment>)
    requires segs != [] && forall seg <- segs :: Acceptable(seg)
    ensures Split(SpelledOut(segs), ',') == Texts(segs)
  {
    forall i | 0 <= i < |segs| ensures Plain(Texts(segs)[i], ',') {
      assert Acceptable(segs[i]);
      if segs[i].Entry? {
        PrintPlain(segs[i].spec);
      }
    }
    SplitJoin(Texts(segs), ',');
  }

  lemma EmptySpec()
    ensures Table(Split("", ',')) == map[] && Complaints(Split("", ',')) == []
  {
    assert Split("", ',') == [""];
    assert ParseEntry("") == Blank;
    TableSnoc([], "");
  }

  /** Each secret answers with the last printed entry carrying it, whatever junk stands between. */
  lemma KeySpecRoundTrip(segs: seq<Segment>, secret: string)
    requires forall seg <- segs :: Acceptable(seg)
    ensures var entries := Split(Trim(SpelledOut(segs)), ',');
            && Answer(Table(entries), secret) == LastFor(segs, secret)
            && Complaints(entries) == Complaints(JunkOnly(segs))
  {
    TrimmedSpecSameTable(SpelledOut(segs));
    if segs == [] {
      EmptySpec();
    } else {
      TextsSurvive(segs);
      TableOfTexts(segs, secret);
      ComplaintsOfTexts(segs);
    }
  }
}
