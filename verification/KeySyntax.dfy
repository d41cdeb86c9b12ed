/** One entry of the API-key specification: trimming, roles and the three fields. */
module KeySyntax {
  import opened Prelude
  import opened Text

  datatype Role = NoRole | Viewer | Analyst | Admin

  datatype Principal = Principal(name: string, role: Role)

  // ---------- trimming and roles ----------

  /** White space as Unicode defines it. */
  predicate Space(c: char) {
    || '\t' <= c <= '\r' || c == ' ' || c == '\U{85}' || c == '\U{A0}' || c == '\U{1680}'
    || '\U{2000}' <= c <= '\U{200A}' || c == '\U{2028}' || c == '\U{2029}' || c == '\U{202F}'
    || c == '\U{205F}' || c == '\U{3000}'
  }

  /** The white space, by code point. */
  lemma SpaceIs(c: char)
    ensures Space(c) <==>
              || c as int in {9, 10, 11, 12, 13, 32, 133, 160, 5760, 8232, 8233, 8239, 8287, 12288}
              || 8192 <= c as int <= 8202
  {
  }

  function TrimLeft(s: string): string {
    if s != [] && Space(s[0]) then TrimLeft(s[1..]) else s
  }

  function TrimRight(s: string): string {
    if s != [] && Space(s[|s| - 1]) then TrimRight(s[..|s| - 1]) else s
  }

  function Trim(s: string): string {
    TrimRight(TrimLeft(s))
  }

  /** Lower case as far as it can produce a plain letter; other characters never match a
      role. */
  function Lower(c: char): char {
    if 'A' <= c <= 'Z' then c - 'A' + 'a'
    else if c == '\U{130}' then 'i'
    else if c == '\U{212A}' then 'k'
    else c
  }

  /** Capital letters become the small ones 32 places on; small ones and digits stay. */
  lemma LowerIs(c: char)
    ensures 65 <= c as int <= 90 ==> Lower(c) as int == c as int + 32
    ensures c as int < 65 || 90 < c as int < 128 ==> Lower(c) == c
    ensures c as int >= 128 && 97 <= Lower(c) as int <= 122 ==> Lower(c) in {'i', 'k'}
  {
  }

  function ToLower(s: string): string {
    seq(|s|, i requires 0 <= i < |s| => Lower(s[i]))
  }

  function ParseRole(s: string): Role {
    var r := ToLower(Trim(s));
    if r == "viewer" then Viewer else if r == "analyst" then Analyst else if r == "admin" then Admin else NoRole
  }

  function RoleName(r: Role): string {
    match r
    case Viewer => "viewer"
    case Analyst => "analyst"
    case Admin => "admin"
    case NoRole => "none"
  }

  // ---------- one entry ----------

  datatype EntryResult = Blank | Malformed | Invalid(name: string) | Key(secret: string, principal: Principal)

  /** Cut at the first separator. */
  function Cut(s: string, sep: char): Option<(string, string)> {
    if s == [] then None
    else if s[0] == sep then Some(([], s[1..]))
    else match Cut(s[1..], sep)
      case None => None
      case Some((x, y)) => Some(([s[0]] + x, y))
  }

  function ParseFields(name: string, secret: string, roleName: string): EntryResult {
    var role := ParseRole(roleName);
    if Trim(secret) == "" || role == NoRole then Invalid(Trim(name))
    else Key(Trim(secret), Principal(Trim(name), role))
  }

  /** A name, a secret and a role between colons, where the role takes everything after the
      second colon. */
  function ParseEntry(raw: string): EntryResult {
    var entry := Trim(raw);
    if entry == "" then Blank else
    match Cut(entry, ':')
    case None => Malformed
    case Some((name, rest)) =>
      match Cut(rest, ':')
      case None => Malformed
      case Some((secret, roleName)) => ParseFields(name, secret, roleName)
  }

  // ---------- trimming ----------

  lemma {:induction false} TrimLeftSnoc(s: string, c: char)
    ensures TrimLeft(s + [c]) == if TrimLeft(s) == [] && Space(c) then [] else TrimLeft(s) + [c]
  {
    if s == [] {
      assert s + [c] == [c];
    } else {
      assert (s + [c])[1..] == s[1..] + [c];
      TrimLeftSnoc(s[1..], c);
    }
  }

  lemma {:induction false} TrimsCommute(s: string)
    ensures TrimLeft(TrimRight(s)) == TrimRight(TrimLeft(s))
  {
    if s == [] {
    } else {
      var n := |s| - 1;
      assert s == s[..n] + [s[n]];
      TrimLeftSnoc(s[..n], s[n]);
      TrimsCommute(s[..n]);
      assert (TrimLeft(s[..n]) + [s[n]])[..|TrimLeft(s[..n])|] == TrimLeft(s[..n]);
    }
  }

  lemma {:induction false} TrimLeftTwice(s: string)
    ensures TrimLeft(TrimLeft(s)) == TrimLeft(s)
  {
    if s == [] {
    } else {
      TrimLeftTwice(s[1..]);
    }
  }

  lemma {:induction false} TrimRightTwice(s: string)
    ensures TrimRight(TrimRight(s)) == TrimRight(s)
  {
    if s == [] {
    } else {
      TrimRightTwice(s[..|s| - 1]);
    }
  }

  lemma TrimOfTrimmed(s: string)
    ensures Trim(TrimLeft(s)) == Trim(s) && Trim(TrimRight(s)) == Trim(s)
  {
    TrimLeftTwice(s);
    TrimsCommute(s);
    TrimRightTwice(TrimLeft(s));
  }

  lemma {:induction false} TrimLeftStart(s: string)
    ensures TrimLeft(s) == s <==> s == [] || !Space(s[0])
    ensures TrimLeft(s) == s || |TrimLeft(s)| < |s|
  {
    if s != [] && Space(s[0]) {
      TrimLeftStart(s[1..]);
    }
  }

  lemma {:induction false} TrimRightEnd(s: string)
    ensures TrimRight(s) == s <==> s == [] || !Space(s[|s| - 1])
    ensures TrimRight(s) == s || |TrimRight(s)| < |s|
  {
    if s != [] && Space(s[|s| - 1]) {
      TrimRightEnd(s[..|s| - 1]);
    }
  }

  lemma TrimmedEnds(s: string)
    ensures Trim(s) == s <==> s == [] || (!Space(s[0]) && !Space(s[|s| - 1]))
  {
    TrimLeftStart(s);
    TrimRightEnd(s);
    TrimRightEnd(TrimLeft(s));
  }

  predicate Blanks(s: string) {
    forall c :: c in s ==> Space(c)
  }

  lemma {:induction false} TrimLeftPad(pre: string, s: string)
    requires Blanks(pre)
    ensures TrimLeft(pre + s) == TrimLeft(s)
  {
    if pre == [] {
      assert pre + s == s;
    } else {
      assert (pre + s)[1..] == pre[1..] + s;
      TrimLeftPad(pre[1..], s);
    }
  }

  lemma {:induction false} TrimRightPad(s: string, post: string)
    requires Blanks(post)
    ensures TrimRight(s + post) == TrimRight(s)
  {
    if post == [] {
      assert s + post == s;
    } else {
      assert (s + post)[..|s + post| - 1] == s + post[..|post| - 1];
      TrimRightPad(s, post[..|post| - 1]);
    }
  }

  lemma {:induction false} TrimLeftParts(s: string) returns (pre: string)
    ensures Blanks(pre) && s == pre + TrimLeft(s)
  {
    if s == [] || !Space(s[0]) {
      pre := [];
    } else {
      var rest := TrimLeftParts(s[1..]);
      pre := [s[0]] + rest;
    }
  }

  lemma {:induction false} TrimRightParts(s: string) returns (post: string)
    ensures Blanks(post) && s == TrimRight(s) + post
  {
    if s == [] || !Space(s[|s| - 1]) {
      post := [];
    } else {
      var rest := TrimRightParts(s[..|s| - 1]);
      post := rest + [s[|s| - 1]];
    }
  }

  lemma TrimParts(s: string) returns (pre: string, post: string)
    ensures Blanks(pre) && Blanks(post) && s == pre + Trim(s) + post
  {
    pre := TrimLeftParts(s);
    post := TrimRightParts(TrimLeft(s));
  }

  /** Trimming leaves what is between the outer blanks. */
  lemma TrimIs(s: string, pre: string, t: string, post: string)
    requires s == pre + t + post && Blanks(pre) && Blanks(post)
    requires t == "" || (!Space(t[0]) && !Space(t[|t| - 1]))
    ensures Trim(s) == t
  {
    assert s == pre + (t + post);
    TrimLeftPad(pre, t + post);
    if t == "" {
      TrimLeftPad(post, "");
      assert t + post == post + "";
    } else {
      TrimLeftStart(t + post);
      TrimRightPad(t, post);
      TrimRightEnd(t);
    }
  }

  lemma {:induction false} TrimLeftKeeps(s: string, rest: string)
    requires rest != [] && !Space(rest[0])
    ensures TrimLeft(s + rest) == TrimLeft(s) + rest
  {
    if s == [] {
      assert s + rest == rest;
    } else {
      assert (s + rest)[1..] == s[1..] + rest;
      TrimLeftKeeps(s[1..], rest);
    }
  }

  lemma {:induction false} TrimRightKeeps(front: string, s: string)
    requires front != [] && !Space(front[|front| - 1])
    ensures TrimRight(front + s) == front + TrimRight(s)
  {
    if s == [] {
      assert front + s == front;
    } else {
      assert (front + s)[..|front + s| - 1] == front + s[..|s| - 1];
      TrimRightKeeps(front, s[..|s| - 1]);
    }
  }

  // ---------- what an entry gives ----------

  lemma {:induction false} CutPlain(x: string, y: string, sep: char)
    requires Plain(x, sep)
    ensures Cut(x + [sep] + y, sep) == Some((x, y))
  {
    var s := x + [sep] + y;
    if x == [] {
      assert s[1..] == y;
    } else {
      assert s[1..] == x[1..] + [sep] + y;
      CutPlain(x[1..], y, sep);
      assert s[0] == x[0] && [x[0]] + x[1..] == x;
    }
  }

  lemma {:induction false} CutParts(s: string, sep: char)
    ensures match Cut(s, sep)
            case None => Plain(s, sep)
            case Some((x, y)) => s == x + [sep] + y && Plain(x, sep)
  {
    if s == [] {
    } else {
      CutParts(s[1..], sep);
      assert s == [s[0]] + s[1..];
    }
  }

  lemma RoleRoundTrip(r: Role)
    requires r != NoRole
    ensures ParseRole(RoleName(r)) == r
  {
    var word := RoleName(r);
    assert Trim(word) == word;
    assert ToLower(word) == word;
  }

  /** The role names, in lower case. */
  predicate Names(word: string, r: Role) {
    (word == "viewer" && r == Viewer) || (word == "analyst" && r == Analyst) || (word == "admin" && r == Admin)
  }

  lemma RoleIs(s: string)
    ensures forall r :: Names(ToLower(Trim(s)), r) <==> r == ParseRole(s) != NoRole
  {
    var word := ToLower(Trim(s));
    assert word == "viewer" ==> word[0] == 'v';
    assert word == "analyst" ==> word[1] == 'n';
    assert word == "admin" ==> word[1] == 'd' && word[0] == 'a';
  }

  function Spelled(name: string, secret: string, role: string): string {
    name + ":" + (secret + ":" + role)
  }

  lemma Rejoin(x: string, secret: string, role: string)
    ensures Spelled(x, secret, role) == x + (":" + (secret + ":" + role))
    ensures Spelled(x, secret, role) == (x + (":" + (secret + ":"))) + role
  {
    Regroup(x, ":", secret + ":" + role);
    Regroup(":", secret + ":", role);
    Regroup(x, ":" + (secret + ":"), role);
  }

  lemma TrimSpelled(name: string, secret: string, role: string)
    ensures Trim(Spelled(name, secret, role)) == Spelled(TrimLeft(name), secret, TrimRight(role))
  {
    Rejoin(name, secret, role);
    TrimLeftKeeps(name, ":" + (secret + ":" + role));
    Rejoin(TrimLeft(name), secret, role);
    TrimRightKeeps(TrimLeft(name) + (":" + (secret + ":")), role);
    Rejoin(TrimLeft(name), secret, TrimRight(role));
  }

  lemma SpelledFields(name: string, secret: string, role: string)
    requires ':' !in name && ':' !in secret
    ensures ParseEntry(Spelled(name, secret, role)) == ParseFields(TrimLeft(name), secret, TrimRight(role))
  {
    TrimSpelled(name, secret, role);
    var pre := TrimLeftParts(name);
    assert Plain(TrimLeft(name), ':');
    CutPlain(TrimLeft(name), secret + [':'] + TrimRight(role), ':');
    CutPlain(secret, TrimRight(role), ':');
  }

  /** An entry name:secret:role, with any blanks around its fields, is a key exactly if its
      secret is not blank and its role has a name; it is then the key of its trimmed
      fields. */
  lemma OneEntry(name: string, secret: string, role: string, r: Role)
    requires ':' !in name && ':' !in secret
    ensures Trim(secret) != "" && Names(ToLower(Trim(role)), r) ==>
              ParseEntry(Spelled(name, secret, role)) == Key(Trim(secret), Principal(Trim(name), r))
    ensures Trim(secret) == "" || (forall r' :: !Names(ToLower(Trim(role)), r')) ==>
              ParseEntry(Spelled(name, secret, role)) == Invalid(Trim(name))
  {
    SpelledFields(name, secret, role);
    TrimOfTrimmed(name);
    TrimOfTrimmed(role);
    RoleIs(role);
    assert Names(ToLower(Trim(role)), ParseRole(role)) || ParseRole(role) == NoRole;
  }

  ghost predicate GivesAs(entry: string, name: string, sec: string, role: string, secret: string, p: Principal) {
    && entry == Spelled(name, sec, role) && ':' !in name && ':' !in sec
    && Trim(sec) == secret && secret != "" && Trim(name) == p.name && Names(ToLower(Trim(role)), p.role)
  }

  /** The entry has the form name:secret:role and makes this key, by its text. */
  ghost predicate Gives(entry: string, secret: string, p: Principal) {
    exists name, sec, role :: GivesAs(entry, name, sec, role, secret, p)
  }

  /** An entry that parses has two colons with its fields between and around them. */
  lemma EntryParts(entry: string) returns (name: string, sec: string, role: string)
    requires !ParseEntry(entry).Blank? && !ParseEntry(entry).Malformed?
    ensures entry == Spelled(name, sec, role) && ':' !in name && ':' !in sec
  {
    var pre, post := TrimParts(entry);
    CutParts(Trim(entry), ':');
    var (x, rest) := Cut(Trim(entry), ':').value;
    CutParts(rest, ':');
    var (y, z) := Cut(rest, ':').value;
    name, sec, role := pre + x, y, z + post;
    assert entry == pre + (x + [':'] + (y + [':'] + z)) + post;
    assert entry == (pre + x) + [':'] + (y + [':'] + (z + post));
  }

  /** An entry parses to a key exactly if its text gives it. */
  lemma EntryGivesIff(entry: string, secret: string, p: Principal)
    ensures ParseEntry(entry) == Key(secret, p) <==> Gives(entry, secret, p)
  {
    if ParseEntry(entry) == Key(secret, p) {
      var name, sec, role := EntryParts(entry);
      OneEntry(name, sec, role, p.role);
      SpelledFields(name, sec, role);
      RoleIs(role);
      TrimOfTrimmed(role);
      TrimOfTrimmed(name);
      assert GivesAs(entry, name, sec, role, secret, p);
    }
    if name, sec, role :| GivesAs(entry, name, sec, role, secret, p) {
      OneEntry(name, sec, role, p.role);
    }
  }

  lemma {:induction false} FirstField(s: string) returns (x: string, y: string)
    requires |Split(s, ':')| > 1
    ensures s == x + [':'] + y && ':' !in x && |Split(s, ':')| == |Split(y, ':')| + 1
  {
    SplitPlain(s, ':');
    CutParts(s, ':');
    var cut := Cut(s, ':').value;
    x, y := cut.0, cut.1;
    SplitAtSeparator(x, y, ':');
    SplitPlain(x, ':');
  }

  /** An entry with two colons or more has three fields, the last taking the rest. */
  lemma ThreeFields(entry: string) returns (name: string, sec: string, role: string)
    requires |Split(entry, ':')| > 2
    ensures entry == Spelled(name, sec, role) && ':' !in name && ':' !in sec
  {
    var rest;
    name, rest := FirstField(entry);
    sec, role := FirstField(rest);
    assert rest == sec + ":" + role;
  }

  /** An entry with fewer than two colons is no key. */
  lemma FewColons(entry: string)
    requires |Split(entry, ':')| <= 2
    ensures ParseEntry(entry) == if Trim(entry) == "" then Blank else Malformed
  {
    if !ParseEntry(entry).Blank? && !ParseEntry(entry).Malformed? {
      var name, sec, role := EntryParts(entry);
      SplitAtSeparator(name, sec + ":" + role, ':');
      SplitAtSeparator(sec, role, ':');
      assert false;
    }
  }
}
