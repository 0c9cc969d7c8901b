/** The key=value configuration parser, and when parsing gives back what was printed. */
module ConfigParsers {
  import opened Wrappers

  datatype Setting = Setting(key: string, value: string)

  predicate IsSpace(c: char) {
    c == ' ' || c == '\t' || c == '\n' || c == '\r' || c == '\U{B}' || c == '\U{C}'
  }

  /** stream >> std::ws */
  function SkipSpace(s: string): string {
    if s != "" && IsSpace(s[0]) then SkipSpace(s[1..]) else s
  }

  /** std::getline up to a delimiter, and what it leaves in the stream. */
  function UpTo(s: string, delim: char): string {
    if s == "" || s[0] == delim then "" else [s[0]] + UpTo(s[1..], delim)
  }

  function Beyond(s: string, delim: char): string {
    if s == "" then "" else if s[0] == delim then s[1..] else Beyond(s[1..], delim)
  }

  /** Erasing every carriage return. */
  function RemoveCr(s: string): string {
    if s == "" then "" else if s[0] == '\r' then RemoveCr(s[1..]) else [s[0]] + RemoveCr(s[1..])
  }

  /** Replacing the regular expressions " +$" and "^ +" by nothing. */
  function TrimRight(s: string): string {
    if s != "" && s[|s| - 1] == ' ' then TrimRight(s[..|s| - 1]) else s
  }

  function TrimLeft(s: string): string {
    if s != "" && s[0] == ' ' then TrimLeft(s[1..]) else s
  }

  /** What one line assigns, if anything: a comment, a line without a key, and one without a
      character after the '=' assign nothing. */
  function Assignment(param: string): Option<Setting> {
    var key := TrimRight(UpTo(param, '='));
    if UpTo(param, '=') != "" && param[0] == '#' then None
    else if key == "" || Beyond(param, '=') == "" then None
    else Some(Setting(key, TrimRight(TrimLeft(Beyond(param, '=')))))
  }

  lemma {:induction false} SkipSpaceShorter(s: string)
    ensures |SkipSpace(s)| <= |s|
    decreases |s|
  {
    if s != "" && IsSpace(s[0]) {
      SkipSpaceShorter(s[1..]);
    }
  }

  lemma {:induction false} BeyondShorter(s: string, delim: char)
    ensures s != "" ==> |Beyond(s, delim)| < |s|
    decreases |s|
  {
    if s != "" && s[0] != delim {
      BeyondShorter(s[1..], delim);
    }
  }

  /** Everything a text assigns, in order. */
  function Assignments(text: string): seq<Setting>
    decreases |text|
  {
    var s := SkipSpace(text);
    SkipSpaceShorter(text);
    BeyondShorter(s, '\n');
    if s == "" then []
    else
      match Assignment(RemoveCr(UpTo(s, '\n')))
      case Some(a) => [a] + Assignments(Beyond(s, '\n'))
      case None => Assignments(Beyond(s, '\n'))
  }

  function Apply(m: map<string, string>, settings: seq<Setting>): map<string, string>
    decreases |settings|
  {
    if settings == [] then m else Apply(m[settings[0].key := settings[0].value], settings[1..])
  }

  function Lookup(m: map<string, string>, key: string): string {
    if key in m then m[key] else ""
  }

  /** The value in the last assignment to a key. */
  function LastValue(settings: seq<Setting>, key: string): string {
    if settings == [] then ""
    else if settings[|settings| - 1].key == key then settings[|settings| - 1].value
    else LastValue(settings[..|settings| - 1], key)
  }

  class ConfigParser {
    var configMap: map<string, string>

    /** The text of the configuration file found, if one is found. */
    constructor (text: Option<string>)
      ensures configMap == match text case Some(t) => Apply(map[], Assignments(t)) case None => map[]
    {
      configMap := map[];
      new;
      if text.Some? {
        ReadConfigFile(text.value);
      }
    }

    method GetValue(key: string) returns (value: string)
      ensures value == Lookup(configMap, key)
    {
      if key in configMap {
        value := configMap[key];
      } else {
        value := "";
      }
    }

    method ReadConfigFile(text: string)
      modifies this
      ensures configMap == Apply(old(configMap), Assignments(text))
    {
      var stream := SkipSpace(text);
      SkipSpaceTwice(text);
      while stream != ""
        invariant SkipSpace(stream) == stream
        invariant Apply(configMap, Assignments(stream)) == Apply(old(configMap), Assignments(text))
        decreases |stream|
      {
        BeyondShorter(stream, '\n');
        SkipSpaceShorter(Beyond(stream, '\n'));
        SkipSpaceTwice(Beyond(stream, '\n'));
        var param := RemoveCr(UpTo(stream, '\n'));
        stream := SkipSpace(Beyond(stream, '\n'));
        var key := UpTo(param, '=');
        if key != "" && key[0] == '#' {
          continue;
        }
        key := TrimRight(key);
        if |key| > 0 {
          var value := Beyond(param, '=');
          if value != "" {
            value := TrimRight(TrimLeft(value));
            configMap := configMap[key := value];
          }
        }
      }
    }
  }

  lemma {:induction false} SkipSpaceTwice(s: string)
    ensures SkipSpace(SkipSpace(s)) == SkipSpace(s)
    ensures Assignments(SkipSpace(s)) == Assignments(s)
    decreases |s|
  {
    if s != "" && IsSpace(s[0]) {
      SkipSpaceTwice(s[1..]);
    }
  }

  // ------------------------------------------------------------------ lookup

  lemma {:induction false} ApplyAppend(m: map<string, string>, settings: seq<Setting>, a: Setting)
    ensures Apply(m, settings + [a]) == Apply(m, settings)[a.key := a.value]
    decreases |settings|
  {
    if settings != [] {
      assert (settings + [a])[1..] == settings[1..] + [a];
      ApplyAppend(m[settings[0].key := settings[0].value], settings[1..], a);
    }
  }

  /** For every text and key, the value looked up is that of the last assignment to the key, or the
      empty string when there is none. */
  lemma {:induction false} LookupIsLastAssignment(settings: seq<Setting>, key: string)
    ensures Lookup(Apply(map[], settings), key) == LastValue(settings, key)
    decreases |settings|
  {
    if settings != [] {
      var front, last := settings[..|settings| - 1], settings[|settings| - 1];
      LookupIsLastAssignment(front, key);
      ApplyAppend(map[], front, last);
      assert settings == front + [last];
    }
  }

  // ------------------------------------------------------------------ printing and parsing

  predicate NoneOf(s: string, c: char) {
    forall i :: 0 <= i < |s| ==> s[i] != c
  }

  /** The white space of the C locale. */
  predicate White(c: char) {
    c in " \t\n\r\U{B}\U{C}"
  }

  predicate AllSpace(s: string) {
    forall i :: 0 <= i < |s| ==> White(s[i])
  }

  predicate CleanKey(k: string) {
    && k != "" && !White(k[0]) && k[0] != '#' && k[|k| - 1] != ' '
    && NoneOf(k, '=') && NoneOf(k, '\r') && NoneOf(k, '\n')
  }

  predicate CleanValue(v: string) {
    && (v != "" ==> v[0] != ' ' && v[|v| - 1] != ' ')
    && NoneOf(v, '\r') && NoneOf(v, '\n')
  }

  function Blanks(n: nat): string {
    seq(n, i => ' ')
  }

  /** A line of a configuration file, without its carriage returns. An empty value takes a blank after
      the '=', for a line that ends there assigns nothing. */
  datatype Line =
    | Blank(pad: string)
    | Comment(pad: string, text: string)
    | Assign(pad: string, s: Setting, before: nat, after: nat, tail: nat)
  {
    predicate Valid() {
      && AllSpace(pad)
      && (Assign? ==> CleanKey(s.key) && CleanValue(s.value) && (s.value != "" || after + tail > 0))
    }

    function Show(): string {
      match this
      case Blank(pad) => pad
      case Comment(pad, text) => pad + ("#" + text)
      case Assign(pad, s, before, after, tail) =>
        pad + (s.key + Blanks(before) + ("=" + (Blanks(after) + s.value + Blanks(tail))))
    }
  }

  /** The raw line r is l, with carriage returns put in anywhere. */
  predicate Renders(r: string, l: Line) {
    NoneOf(r, '\n') && RemoveCr(r) == l.Show()
  }

  function Join(lines: seq<string>): string {
    if lines == [] then "" else if |lines| == 1 then lines[0] else lines[0] + ("\n" + Join(lines[1..]))
  }

  function Settings(ls: seq<Line>): seq<Setting> {
    if ls == [] then []
    else if ls[0].Assign? then [ls[0].s] + Settings(ls[1..])
    else Settings(ls[1..])
  }

  lemma {:induction false} UpToAppend(a: string, delim: char, b: string)
    requires NoneOf(a, delim)
    ensures UpTo(a + ([delim] + b), delim) == a && Beyond(a + ([delim] + b), delim) == b
    decreases |a|
  {
    var s := a + ([delim] + b);
    if a == "" {
      assert s == [delim] + b;
    } else {
      assert s[1..] == a[1..] + ([delim] + b);
      UpToAppend(a[1..], delim, b);
    }
  }

  lemma {:induction false} UpToAll(a: string, delim: char)
    requires NoneOf(a, delim)
    ensures UpTo(a, delim) == a && Beyond(a, delim) == ""
    decreases |a|
  {
    if a != "" {
      UpToAll(a[1..], delim);
    }
  }

  lemma {:induction false} SkipPad(pad: string, s: string)
    requires AllSpace(pad)
    ensures SkipSpace(pad + s) == SkipSpace(s)
    decreases |pad|
  {
    if pad == "" {
      assert pad + s == s;
    } else {
      assert (pad + s)[1..] == pad[1..] + s;
      SkipPad(pad[1..], s);
    }
  }

  /** Skipping space and erasing carriage returns can be done in either order, and skipping stops
      within a line that is not blank. */
  lemma {:induction false} SkipSpaceRemoveCr(r: string)
    ensures RemoveCr(SkipSpace(r)) == SkipSpace(RemoveCr(r))
    ensures SkipSpace(r) == "" <==> SkipSpace(RemoveCr(r)) == ""
    ensures SkipSpace(r) == "" <==> AllSpace(r)
    ensures NoneOf(r, '\n') ==> NoneOf(SkipSpace(r), '\n')
    decreases |r|
  {
    if r != "" && IsSpace(r[0]) {
      SkipSpaceRemoveCr(r[1..]);
      assert AllSpace(r) <==> AllSpace(r[1..]) by {
        assert r == [r[0]] + r[1..];
      }
      if r[0] != '\r' {
        assert RemoveCr(r)[1..] == RemoveCr(r[1..]);
      }
    }
  }

  lemma {:induction false} SkipSpaceAppend(r: string, s: string)
    requires SkipSpace(r) != ""
    ensures SkipSpace(r + s) == SkipSpace(r) + s
    decreases |r|
  {
    if r != "" && IsSpace(r[0]) {
      assert (r + s)[1..] == r[1..] + s;
      SkipSpaceAppend(r[1..], s);
    }
  }

  lemma {:induction false} TrimRightBlanks(s: string, n: nat)
    requires s == "" || s[|s| - 1] != ' '
    ensures TrimRight(s + Blanks(n)) == s
    decreases n
  {
    var t := s + Blanks(n);
    if n == 0 {
      assert t == s;
    } else {
      assert t[..|t| - 1] == s + Blanks(n - 1);
      TrimRightBlanks(s, n - 1);
    }
  }

  lemma {:induction false} TrimLeftBlanks(n: nat, s: string)
    requires s != "" && s[0] != ' '
    ensures TrimLeft(Blanks(n) + s) == s
    decreases n
  {
    var t := Blanks(n) + s;
    if n == 0 {
      assert t == s;
    } else {
      assert t[1..] == Blanks(n - 1) + s;
      TrimLeftBlanks(n - 1, s);
    }
  }

  lemma {:induction false} TrimLeftAllBlanks(n: nat)
    ensures TrimLeft(Blanks(n)) == ""
    decreases n
  {
    if n > 0 {
      assert Blanks(n)[1..] == Blanks(n - 1);
      TrimLeftAllBlanks(n - 1);
    }
  }

  lemma ValueReadsBack(v: string, after: nat, tail: nat)
    requires CleanValue(v)
    ensures TrimRight(TrimLeft(Blanks(after) + v + Blanks(tail))) == v
  {
    var right := Blanks(after) + v + Blanks(tail);
    if v == "" {
      assert right == Blanks(after + tail);
      TrimLeftAllBlanks(after + tail);
    } else {
      assert right == Blanks(after) + (v + Blanks(tail));
      TrimLeftBlanks(after, v + Blanks(tail));
      TrimRightBlanks(v, tail);
    }
  }

  /** A clean setting is read back from its line, whatever the space around key and value. */
  lemma AssignmentReadsBack(s: Setting, before: nat, after: nat, tail: nat)
    requires CleanKey(s.key) && CleanValue(s.value) && (s.value != "" || after + tail > 0)
    ensures Assignment(s.key + Blanks(before) + ("=" + (Blanks(after) + s.value + Blanks(tail)))) == Some(s)
  {
    var left, right := s.key + Blanks(before), Blanks(after) + s.value + Blanks(tail);
    UpToAppend(left, '=', right);
    TrimRightBlanks(s.key, before);
    ValueReadsBack(s.value, after, tail);
    assert |right| == after + |s.value| + tail;
    assert left + (['='] + right) == left + ("=" + right);
  }

  /** What a raw line assigns, once its leading space is skipped. */
  lemma LineAssigns(r: string, l: Line)
    requires l.Valid() && Renders(r, l)
    ensures SkipSpace(r) == "" <==> l.Blank?
    ensures !l.Blank? ==> Assignment(RemoveCr(SkipSpace(r))) == if l.Assign? then Some(l.s) else None
  {
    SkipSpaceRemoveCr(r);
    match l
    case Blank(pad) =>
      SkipPad(pad, "");
      assert pad + "" == pad;
    case Comment(pad, text) =>
      SkipPad(pad, "#" + text);
      assert UpTo("#" + text, '=') != "";
    case Assign(pad, s, before, after, tail) =>
      SkipPad(pad, s.key + Blanks(before) + ("=" + (Blanks(after) + s.value + Blanks(tail))));
      AssignmentReadsBack(s, before, after, tail);
  }

  /** Parsing a text one line at a time. */
  lemma FirstLine(r: string, rest: string)
    requires NoneOf(r, '\n')
    ensures Assignments(r + ("\n" + rest))
         == (if SkipSpace(r) == "" || Assignment(RemoveCr(SkipSpace(r))).None? then []
             else [Assignment(RemoveCr(SkipSpace(r))).value]) + Assignments(rest)
  {
    SkipSpaceRemoveCr(r);
    if SkipSpace(r) == "" {
      SkipPad(r, "\n" + rest);
      SkipPad("\n", rest);
      SkipSpaceTwice(r + ("\n" + rest));
      SkipSpaceTwice(rest);
    } else {
      SkipSpaceAppend(r, "\n" + rest);
      UpToAppend(SkipSpace(r), '\n', rest);
    }
  }

  lemma LastLine(r: string)
    requires NoneOf(r, '\n')
    ensures Assignments(r)
         == if SkipSpace(r) == "" || Assignment(RemoveCr(SkipSpace(r))).None? then []
            else [Assignment(RemoveCr(SkipSpace(r))).value]
  {
    SkipSpaceRemoveCr(r);
    UpToAll(SkipSpace(r), '\n');
  }

  /** Parsing gives back exactly the settings printed, in order, whatever blank lines, comments,
      padding and carriage returns come in between. */
  lemma {:induction false} ParseInvertsPrint(ls: seq<Line>, rs: seq<string>)
    requires |ls| == |rs| && forall i :: 0 <= i < |ls| ==> ls[i].Valid() && Renders(rs[i], ls[i])
    ensures Assignments(Join(rs)) == Settings(ls)
    decreases |ls|
  {
    if ls != [] {
      LineAssigns(rs[0], ls[0]);
      if |ls| == 1 {
        LastLine(rs[0]);
      } else {
        ParseInvertsPrint(ls[1..], rs[1..]);
        FirstLine(rs[0], Join(rs[1..]));
      }
    }
  }

  lemma {:induction false} ApplyListing(m0: map<string, string>, settings: seq<Setting>, m: map<string, string>)
    requires forall a :: a in settings ==> a.key in m && m[a.key] == a.value
    requires forall k :: k in m0 ==> k in m && m[k] == m0[k]
    requires forall k :: k in m ==> k in m0 || exists i :: 0 <= i < |settings| && settings[i].key == k
    ensures Apply(m0, settings) == m
    decreases |settings|
  {
    if settings != [] {
      var m1 := m0[settings[0].key := settings[0].value];
      assert settings[0] in settings;
      forall k | k in m && k !in m1 ensures exists i :: 0 <= i < |settings[1..]| && settings[1..][i].key == k {
        var i :| 0 <= i < |settings| && settings[i].key == k;
        assert settings[1..][i - 1].key == k;
      }
      ApplyListing(m1, settings[1..], m);
    }
  }

  /** A map is read back from any text that prints each of its entries, in any order and as often as
      you like, and nothing else. */
  lemma MapRoundTrip(m: map<string, string>, ls: seq<Line>, rs: seq<string>)
    requires |ls| == |rs| && forall i :: 0 <= i < |ls| ==> ls[i].Valid() && Renders(rs[i], ls[i])
    requires forall a :: a in Settings(ls) ==> a.key in m && m[a.key] == a.value
    requires forall k :: k in m ==> exists i :: 0 <= i < |Settings(ls)| && Settings(ls)[i].key == k
    ensures Apply(map[], Assignments(Join(rs))) == m
  {
    ParseInvertsPrint(ls, rs);
    ApplyListing(map[], Settings(ls), m);
  }

  // ------------------------------------------------------------------ what can be printed

  lemma {:induction false} SplitClean(s: string, delim: char, c: char)
    ensures NoneOf(UpTo(s, delim), delim)
    ensures UpTo(s, delim) != "" ==> s != "" && UpTo(s, delim)[0] == s[0]
    ensures NoneOf(s, c) ==> NoneOf(UpTo(s, delim), c) && NoneOf(Beyond(s, delim), c)
    decreases |s|
  {
    if s != "" && s[0] != delim {
      SplitClean(s[1..], delim, c);
    }
  }

  lemma {:induction false} RemoveCrClean(s: string, c: char)
    ensures NoneOf(RemoveCr(s), '\r')
    ensures NoneOf(s, c) ==> NoneOf(RemoveCr(s), c)
    ensures NoneOf(s, '\r') ==> RemoveCr(s) == s
    ensures s != "" && s[0] != '\r' ==> RemoveCr(s) != "" && RemoveCr(s)[0] == s[0]
    decreases |s|
  {
    if s != "" {
      RemoveCrClean(s[1..], c);
    }
  }

  lemma {:induction false} TrimRightClean(s: string, c: char)
    ensures var t := TrimRight(s);
      && (t != "" ==> t[|t| - 1] != ' ' && s != "" && t[0] == s[0])
      && (NoneOf(s, c) ==> NoneOf(t, c))
    decreases |s|
  {
    if s != "" && s[|s| - 1] == ' ' {
      TrimRightClean(s[..|s| - 1], c);
    }
  }

  lemma {:induction false} TrimLeftClean(s: string, c: char)
    ensures var t := TrimLeft(s);
      && (t != "" ==> t[0] != ' ')
      && (NoneOf(s, c) ==> NoneOf(t, c))
    decreases |s|
  {
    if s != "" && s[0] == ' ' {
      TrimLeftClean(s[1..], c);
    }
  }

  lemma {:induction false} SkipSpaceStops(s: string)
    ensures SkipSpace(s) != "" ==> !IsSpace(SkipSpace(s)[0])
    decreases |s|
  {
    if s != "" && IsSpace(s[0]) {
      SkipSpaceStops(s[1..]);
    }
  }

  lemma LineClean(s: string)
    requires s != "" && !IsSpace(s[0]) && NoneOf(s, '\n')
    ensures Assignment(RemoveCr(s)).Some? ==>
      var a := Assignment(RemoveCr(s)).value; CleanKey(a.key) && CleanValue(a.value)
  {
    var param := RemoveCr(s);
    RemoveCrClean(s, '\n');
    var key, value := UpTo(param, '='), Beyond(param, '=');
    forall c: char ensures NoneOf(param, c) ==> NoneOf(TrimRight(key), c) && NoneOf(TrimRight(TrimLeft(value)), c) {
      SplitClean(param, '=', c);
      TrimRightClean(key, c);
      TrimLeftClean(value, c);
      TrimRightClean(TrimLeft(value), c);
    }
    SplitClean(param, '=', '=');
    TrimRightClean(key, '=');
    TrimLeftClean(value, '=');
    TrimRightClean(TrimLeft(value), '=');
  }

  /** Whatever the text, only clean keys and values are ever stored. */
  lemma {:induction false} ParsedClean(text: string)
    ensures forall a :: a in Assignments(text) ==> CleanKey(a.key) && CleanValue(a.value)
    decreases |text|
  {
    var s := SkipSpace(text);
    if s != "" {
      SkipSpaceShorter(text);
      SkipSpaceStops(text);
      BeyondShorter(s, '\n');
      ParsedClean(Beyond(s, '\n'));
      SplitClean(s, '\n', '\n');
      LineClean(UpTo(s, '\n'));
    }
  }

  /** A setting on a line of its own, with so many blanks after the '='. */
  function PlainLine(a: Setting, after: nat): Line {
    Assign("", a, 0, after, 0)
  }

  lemma PlainLineRenders(a: Setting, after: nat)
    requires CleanKey(a.key) && CleanValue(a.value) && (a.value != "" || after > 0)
    ensures PlainLine(a, after).Valid() && Renders(PlainLine(a, after).Show(), PlainLine(a, after))
    ensures PlainLine(a, after).Show() == a.key + ("=" + (Blanks(after) + a.value))
  {
    var show := PlainLine(a, after).Show();
    assert show == a.key + ("=" + (Blanks(after) + a.value)) by {
      assert Blanks(0) == "";
      assert a.key + Blanks(0) == a.key && Blanks(after) + a.value + Blanks(0) == Blanks(after) + a.value;
    }
    assert NoneOf(show, '\n') && NoneOf(show, '\r');
    RemoveCrClean(show, '\n');
  }

  lemma PlainLineParses(a: Setting, after: nat)
    requires CleanKey(a.key) && CleanValue(a.value) && (a.value != "" || after > 0)
    ensures Assignments(a.key + ("=" + (Blanks(after) + a.value))) == [a]
  {
    var l := PlainLine(a, after);
    PlainLineRenders(a, after);
    ParseInvertsPrint([l], [l.Show()]);
    assert Settings([l]) == [a] by {
      assert [l][1..] == [];
    }
  }

  /** A line that ends with the '=' assigns nothing. */
  lemma KeyAloneAssignsNothing(k: string)
    requires CleanKey(k)
    ensures Assignments(k + "=") == []
  {
    var text := k + "=";
    RemoveCrClean(text, '\n');
    LastLine(text);
    assert text == k + (['='] + "");
    UpToAppend(k, '=', "");
  }

  /** The plain line key=value is read back as that setting exactly when the key is clean and the value
      is clean and not empty. */
  lemma PrintableExactly(a: Setting)
    ensures Assignments(a.key + ("=" + a.value)) == [a] <==> CleanKey(a.key) && CleanValue(a.value) && a.value != ""
  {
    if CleanKey(a.key) && CleanValue(a.value) {
      if a.value == "" {
        assert "=" + a.value == "=";
        KeyAloneAssignsNothing(a.key);
      } else {
        PlainLineParses(a, 0);
        assert Blanks(0) + a.value == a.value;
      }
    } else {
      ParsedClean(a.key + ("=" + a.value));
      assert a in [a];
    }
  }

  /** Some file assigns just this setting, exactly when its key and value are clean. */
  lemma ExpressibleExactly(a: Setting)
    ensures (exists text :: Assignments(text) == [a]) <==> CleanKey(a.key) && CleanValue(a.value)
  {
    if CleanKey(a.key) && CleanValue(a.value) {
      PlainLineParses(a, 1);
    }
    forall text | Assignments(text) == [a] ensures CleanKey(a.key) && CleanValue(a.value) {
      ParsedClean(text);
      assert a in Assignments(text);
    }
  }

  predicate CleanMap(m: map<string, string>) {
    forall k :: k in m ==> CleanKey(k) && CleanValue(m[k])
  }

  lemma {:induction false} ApplyClean(m: map<string, string>, settings: seq<Setting>)
    requires CleanMap(m) && forall a :: a in settings ==> CleanKey(a.key) && CleanValue(a.value)
    ensures CleanMap(Apply(m, settings))
    decreases |settings|
  {
    if settings != [] {
      assert settings[0] in settings;
      ApplyClean(m[settings[0].key := settings[0].value], settings[1..]);
    }
  }

  /** The entries of a map, in some order. */
  lemma {:induction false} Entries(m: map<string, string>) returns (settings: seq<Setting>)
    ensures forall a :: a in settings ==> a.key in m && m[a.key] == a.value
    ensures forall k :: k in m ==> exists i :: 0 <= i < |settings| && settings[i].key == k
    decreases |m|
  {
    settings := [];
    if m.Keys != {} {
      var k :| k in m.Keys;
      var rest := Entries(m - {k});
      settings := [Setting(k, m[k])] + rest;
      assert settings[0].key == k;
      forall j | j in m && j != k ensures exists i :: 0 <= i < |settings| && settings[i].key == j {
        assert j in m - {k};
        var i :| 0 <= i < |rest| && rest[i].key == j;
        assert settings[i + 1].key == j;
      }
    }
  }

  lemma {:induction false} PlainLinesSettings(settings: seq<Setting>)
    ensures Settings(seq(|settings|, i requires 0 <= i < |settings| => PlainLine(settings[i], 1))) == settings
    decreases |settings|
  {
    var ls := seq(|settings|, i requires 0 <= i < |settings| => PlainLine(settings[i], 1));
    if settings != [] {
      var rest := settings[1..];
      assert ls[1..] == seq(|rest|, i requires 0 <= i < |rest| => PlainLine(rest[i], 1));
      PlainLinesSettings(rest);
    }
  }

  /** Some file is read as this map, exactly when its keys and values are clean. */
  lemma MapExpressibleExactly(m: map<string, string>)
    ensures (exists text :: Apply(map[], Assignments(text)) == m) <==> CleanMap(m)
  {
    if CleanMap(m) {
      var settings := Entries(m);
      var ls := seq(|settings|, i requires 0 <= i < |settings| => PlainLine(settings[i], 1));
      var rs := seq(|settings|, i requires 0 <= i < |settings| => PlainLine(settings[i], 1).Show());
      forall i | 0 <= i < |ls| ensures ls[i].Valid() && Renders(rs[i], ls[i]) {
        assert settings[i] in settings;
        PlainLineRenders(settings[i], 1);
      }
      PlainLinesSettings(settings);
      MapRoundTrip(m, ls, rs);
    }
    forall text | Apply(map[], Assignments(text)) == m ensures CleanMap(m) {
      ParsedClean(text);
      ApplyClean(map[], Assignments(text));
    }
  }
}
