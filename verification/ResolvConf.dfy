/** The edit of resolv.conf and its undoing (src/ipv4.c, src/dns_policy.h), for a file that
  * is changed directly. Text is a sequence of bytes, written as characters.
  */
module ResolvConf {
  import opened CStrings
  import opened EngineConfig
  import opened Wrappers

  const MAX_DOMAIN_LENGTH := 256

  type Address = b: seq<Octet> | |b| == 4 witness [0, 0, 0, 0]

  // ---- lines

  /** The tokens of strtok with the line break as delimiter: the lines that are not empty. */
  function Tokens(text: string): (lines: seq<string>)
    ensures forall l :: l in lines ==> l != "" && '\n' !in l
    decreases |text|
  {
    if text == "" then []
    else
      var i := IndexOf(text, '\n');
      if i == 0 then Tokens(text[1..]) else [text[..i]] + Tokens(text[i..])
  }

  function Unlines(lines: seq<string>): string {
    if lines == [] then "" else lines[0] + "\n" + Unlines(lines[1..])
  }

  function Chomp(line: string): string {
    if line != "" && line[|line| - 1] == '\r' then line[..|line| - 1] else line
  }

  /** dns_line_present, line by line. */
  predicate Present(contents: string, expected: string)
    decreases |contents|
  {
    expected != "" && contents != "" &&
    (var i := IndexOf(contents, '\n');
     Chomp(contents[..i]) == expected || (i < |contents| && Present(contents[i + 1..], expected)))
  }

  // ---- the lines of a tunnel

  function Dotted(a: Address): string
  {
    Decimal(a[0]) + "." + Decimal(a[1]) + "." + Decimal(a[2]) + "." + Decimal(a[3])
  }

  /** The line for a nameserver; none for the zero address. */
  function ServerLine(a: Address): string
  {
    if a == [0, 0, 0, 0] then "" else "nameserver " + Dotted(a)
  }

  function Clipped(suffix: string): string {
    if |suffix| <= MAX_DOMAIN_LENGTH then suffix else suffix[..MAX_DOMAIN_LENGTH]
  }

  function Replaced(text: string): (r: string)
    ensures |r| == |text|
    ensures forall i :: 0 <= i < |text| ==> r[i] == if text[i] == ';' then ' ' else text[i]
  {
    if text == "" then "" else [if text[0] == ';' then ' ' else text[0]] + Replaced(text[1..])
  }

  /** The search line as it is added, and as it is looked for to be deleted. */
  function AddedSearch(suffix: Option<string>): string {
    match suffix
    case Some(s) => Replaced("search " + Clipped(s))
    case None => ""
  }

  function DeletedSearch(suffix: Option<string>): string {
    match suffix
    case Some(s) => if s == "" then "" else "search " + Clipped(s)
    case None => ""
  }

  // ---- the edit and its undoing

  datatype Flag = NotAsked | Added | WasThere

  datatype Flags = Flags(ns1: Flag, ns2: Flag, search: Flag)

  datatype Settings = Settings(ns1: Address, ns2: Address, suffix: Option<string>)

  function FlagOf(contents: string, line: string): Flag {
    if line == "" then NotAsked else if Present(CString(contents), line) then WasThere else Added
  }

  function FlagsOf(contents: string, t: Settings): Flags
  {
    Flags(FlagOf(contents, ServerLine(t.ns1)), FlagOf(contents, ServerLine(t.ns2)),
          FlagOf(contents, AddedSearch(t.suffix)))
  }

  function Front(flag: Flag, line: string): string {
    if flag == Added then line + "\n" else ""
  }

  function AfterAdd(contents: string, t: Settings): string
  {
    var f := FlagsOf(contents, t);
    Front(f.ns1, ServerLine(t.ns1)) + Front(f.ns2, ServerLine(t.ns2)) + Front(f.search, AddedSearch(t.suffix))
    + contents
  }

  predicate Drops(line: string, t: Settings, f: Flags)
  {
    || (ServerLine(t.ns1) != "" && line == ServerLine(t.ns1) && f.ns1 == Added)
    || (ServerLine(t.ns2) != "" && line == ServerLine(t.ns2) && f.ns2 == Added)
    || (DeletedSearch(t.suffix) != "" && line == DeletedSearch(t.suffix) && f.search == Added)
  }

  function Kept(lines: seq<string>, t: Settings, f: Flags): seq<string>
  {
    if lines == [] then []
    else if Drops(lines[0], t, f) then Kept(lines[1..], t, f)
    else [lines[0]] + Kept(lines[1..], t, f)
  }

  function AfterDelete(contents: string, t: Settings, f: Flags): string
  {
    Unlines(Kept(Tokens(CString(contents)), t, f))
  }

  // ---- the functions on the file

  class Resolver {
    const t: Settings
    var contents: string
    var flags: Flags

    constructor (t: Settings, contents: string)
      ensures this.t == t && this.contents == contents
    {
      this.t := t;
      this.contents := contents;
      flags := Flags(NotAsked, NotAsked, NotAsked);
    }

    /** dns_line_present. */
    static method LinePresent(text: string, expected: string) returns (present: bool)
      ensures present == Present(text, expected)
      ensures expected == "" ==> !present
    {
      if expected == "" {
        return false;
      }
      var rest := text;
      while rest != ""
        invariant Present(rest, expected) == Present(text, expected)
        decreases |rest|
      {
        var end := IndexOf(rest, '\n');
        var length := end;
        if length > 0 && rest[length - 1] == '\r' {
          length := length - 1;
        }
        assert rest[..length] == Chomp(rest[..end]);
        if length == |expected| && rest[..length] == expected {
          return true;
        }
        if end == |rest| {
          return false;
        }
        rest := rest[end + 1..];
      }
      present := false;
    }

    static method WasPresent(buffer: string, line: string, before: Flag) returns (flag: Flag)
      requires before == if line == "" then NotAsked else Added
      ensures flag == if line == "" then NotAsked else if Present(buffer, line) then WasThere else Added
    {
      var present := LinePresent(buffer, line);
      flag := if present then WasThere else before;
    }

    /** ipv4_add_nameservers_to_resolv_conf; false for an empty file. */
    method Add() returns (ok: bool)
      modifies this
      ensures ok == (old(contents) != "")
      ensures ok ==> contents == AfterAdd(old(contents), t) && flags == FlagsOf(old(contents), t)
      ensures !ok ==> contents == old(contents)
    {
      hide Present, ServerLine, AddedSearch, CString;
      var ns1, ns2, search := ServerLine(t.ns1), ServerLine(t.ns2), AddedSearch(t.suffix);
      flags := Flags(if ns1 == "" then NotAsked else Added, if ns2 == "" then NotAsked else Added, Added);
      if contents == "" {
        return false;
      }
      if search == "" {
        flags := flags.(search := NotAsked);
      }
      var buffer := CString(contents);
      var flag := WasPresent(buffer, ns1, flags.ns1);
      flags := flags.(ns1 := flag);
      flag := WasPresent(buffer, ns2, flags.ns2);
      flags := flags.(ns2 := flag);
      flag := WasPresent(buffer, search, flags.search);
      flags := flags.(search := flag);
      assert flags == FlagsOf(old(contents), t);
      hide FlagsOf;
      contents := Front(flags.ns1, ns1) + Front(flags.ns2, ns2) + Front(flags.search, search) + contents;
      ok := true;
    }

    /** The loop over the lines of the buffer; the text it writes. */
    static method KeepLines(buffer: string, t: Settings, f: Flags) returns (text: string)
      ensures text == Unlines(Kept(Tokens(buffer), t, f))
    {
      var ns1, ns2, search := ServerLine(t.ns1), ServerLine(t.ns2), DeletedSearch(t.suffix);
      hide ServerLine, DeletedSearch, Tokens, Kept, Unlines;
      var rest := buffer;
      text := "";
      while rest != ""
        invariant text + Unlines(Kept(Tokens(rest), t, f)) == Unlines(Kept(Tokens(buffer), t, f))
        decreases |rest|
      {
        var end := IndexOf(rest, '\n');
        DeleteStep(rest, t, f);
        if end == 0 {
          rest := rest[1..];
        } else {
          var line := rest[..end];
          if ns1 != "" && line == ns1 && f.ns1 == Added {
          } else if ns2 != "" && line == ns2 && f.ns2 == Added {
          } else if search != "" && line == search && f.search == Added {
          } else {
            text := text + (line + "\n");
          }
          rest := rest[end..];
        }
      }
      NothingLeft(t, f);
    }

    /** ipv4_del_nameservers_from_resolv_conf; false for an empty file. */
    method Delete() returns (ok: bool)
      modifies `contents
      ensures ok == (old(contents) != "")
      ensures ok ==> contents == AfterDelete(old(contents), t, flags)
      ensures !ok ==> contents == old(contents)
    {
      if contents == "" {
        return false;
      }
      contents := KeepLines(CString(contents), t, flags);
      ok := true;
    }
  }

  lemma DeleteStep(rest: string, t: Settings, f: Flags)
    requires rest != ""
    ensures
      var end := IndexOf(rest, '\n');
      Unlines(Kept(Tokens(rest), t, f)) ==
        if end == 0 then Unlines(Kept(Tokens(rest[1..]), t, f))
        else (if Drops(rest[..end], t, f) then "" else rest[..end] + "\n") + Unlines(Kept(Tokens(rest[end..]), t, f))
  {
    var end := IndexOf(rest, '\n');
    if end > 0 {
      var line, more := rest[..end], Tokens(rest[end..]);
      assert Tokens(rest) == [line] + more;
      hide Tokens, Drops;
      assert ([line] + more)[1..] == more;
      var kept := Kept(more, t, f);
      assert ([line] + kept)[1..] == kept;
    }
  }

  lemma NothingLeft(t: Settings, f: Flags)
    ensures Unlines(Kept(Tokens(""), t, f)) == ""
  {
  }

  // ---- lines of texts

  lemma {:induction false} FirstBreak(text: string, rest: string)
    ensures IndexOf(text + "\n" + rest, '\n') == IndexOf(text, '\n')
  {
    if text == "" {
      assert (text + "\n" + rest)[0] == '\n';
    } else {
      FirstBreak(text[1..], rest);
      assert (text + "\n" + rest)[0] == text[0];
      assert (text + "\n" + rest)[1..] == text[1..] + "\n" + rest;
    }
  }

  lemma TokensSplit(text: string)
    requires text != ""
    ensures
      var i := IndexOf(text, '\n');
      Tokens(text) == if i == 0 then Tokens(text[1..]) else [text[..i]] + Tokens(text[i..])
  {
  }

  lemma SliceAppend(text: string, i: nat, rest: string)
    requires i <= |text|
    ensures
      var all := text + "\n" + rest;
      all[..i] == text[..i] && all[i..] == text[i..] + "\n" + rest
  {
  }

  lemma {:induction false} TokensAppend(text: string, rest: string)
    ensures Tokens(text + "\n" + rest) == Tokens(text) + Tokens(rest)
    decreases |text|
  {
    var all := text + "\n" + rest;
    FirstBreak(text, rest);
    TokensSplit(all);
    if text == "" {
      assert all[1..] == rest;
    } else {
      var i := IndexOf(text, '\n');
      TokensSplit(text);
      SliceAppend(text, i, rest);
      SliceAppend(text, 1, rest);
      TokensAppend(if i == 0 then text[1..] else text[i..], rest);
    }
    hide Tokens, IndexOf;
  }

  predicate AreLines(lines: seq<string>) {
    forall l :: l in lines ==> l != "" && '\n' !in l
  }

  lemma TokensOne(line: string)
    requires line != "" && '\n' !in line
    ensures Tokens(line) == [line]
  {
    assert line[..|line|] == line && line[|line|..] == "";
    assert IndexOf(line, '\n') == |line|;
  }

  /** The text that is written has exactly the lines it is written from. */
  lemma {:induction false} TokensUnlines(lines: seq<string>)
    requires AreLines(lines)
    ensures Tokens(Unlines(lines)) == lines
  {
    if lines != [] {
      assert lines[0] in lines && forall l :: l in lines[1..] ==> l in lines;
      TokensUnlines(lines[1..]);
      TokensOne(lines[0]);
      TokensAppend(lines[0], Unlines(lines[1..]));
      assert lines == [lines[0]] + lines[1..];
    }
  }

  predicate HasLine(lines: seq<string>, expected: string) {
    exists l :: l in lines && Chomp(l) == expected
  }

  lemma HasLineCons(l: string, lines: seq<string>, expected: string)
    ensures HasLine([l] + lines, expected) <==> Chomp(l) == expected || HasLine(lines, expected)
  {
    assert l in [l] + lines;
    if HasLine(lines, expected) {
      var q :| q in lines && Chomp(q) == expected;
      assert q in [l] + lines;
    }
    hide Chomp;
  }

  /** A line is found exactly when one of the non-blank lines is it, but for a carriage
    * return at its end.
    */
  lemma {:induction false} PresentExactly(contents: string, expected: string)
    ensures Present(contents, expected) <==> expected != "" && HasLine(Tokens(contents), expected)
    decreases |contents|
  {
    if contents != "" && expected != "" {
      var i := IndexOf(contents, '\n');
      if i < |contents| {
        PresentExactly(contents[i + 1..], expected);
        assert contents[i..][1..] == contents[i + 1..];
        assert Tokens(contents[i..]) == Tokens(contents[i + 1..]);
      } else {
        assert contents[i..] == "";
        assert !HasLine([], expected);
      }
      if i > 0 {
        HasLineCons(contents[..i], Tokens(contents[i..]), expected);
      } else {
        assert contents[1..] == contents[i + 1..];
      }
      hide HasLine;
    }
  }

  lemma DigitsAreFine(n: nat)
    ensures '\n' !in Decimal(n) && '\r' !in Decimal(n) && '\0' !in Decimal(n)
  {
    DecimalDigits(n);
  }

  /** What is used of a nameserver line. */
  lemma ServerLineShape(a: Address)
    ensures
      var l := ServerLine(a);
      l != "" ==> '\n' !in l && '\0' !in l && l[0] == 'n' && l[|l| - 1] != '\r'
  {
    DigitsAreFine(a[0]);
    DigitsAreFine(a[1]);
    DigitsAreFine(a[2]);
    DigitsAreFine(a[3]);
    var l := ServerLine(a);
    if l != "" {
      var d := Decimal(a[3]);
      assert d[|d| - 1] in d;
      assert l[|l| - 1] == d[|d| - 1];
    }
  }

  // ---- what the deletion leaves

  lemma {:induction false} KeptAll(lines: seq<string>, t: Settings, f: Flags)
    requires forall l :: l in lines ==> !Drops(l, t, f)
    ensures Kept(lines, t, f) == lines
  {
    if lines != [] {
      KeptAll(lines[1..], t, f);
      assert lines == [lines[0]] + lines[1..];
    }
    hide Drops;
  }

  lemma KeptFirst(lines: seq<string>, t: Settings, f: Flags)
    requires lines != []
    ensures Kept(lines, t, f) == (if Drops(lines[0], t, f) then [] else [lines[0]]) + Kept(lines[1..], t, f)
  {
    hide Drops;
  }

  lemma {:induction false} KeptAppend(a: seq<string>, b: seq<string>, t: Settings, f: Flags)
    ensures Kept(a + b, t, f) == Kept(a, t, f) + Kept(b, t, f)
  {
    if a == [] {
      assert a + b == b;
    } else {
      hide Kept, Drops;
      KeptAppend(a[1..], b, t, f);
      assert (a + b)[0] == a[0] && (a + b)[1..] == a[1..] + b;
      KeptFirst(a, t, f);
      KeptFirst(a + b, t, f);
      var first := if Drops(a[0], t, f) then [] else [a[0]];
      Associative(first, Kept(a[1..], t, f), Kept(b, t, f));
    }
  }

  /** A line that is not dropped stays as often as it was there. */
  lemma {:induction false} KeptCount(lines: seq<string>, t: Settings, f: Flags, x: string)
    requires !Drops(x, t, f)
    ensures multiset(Kept(lines, t, f))[x] == multiset(lines)[x]
    ensures |Kept(lines, t, f)| <= |lines|
    ensures forall l :: l in Kept(lines, t, f) ==> l in lines
  {
    if lines != [] {
      KeptCount(lines[1..], t, f, x);
      assert lines == [lines[0]] + lines[1..];
    }
    hide Drops;
  }

  lemma {:induction false} KeptShorter(lines: seq<string>, t: Settings, f: Flags, x: string)
    requires x in lines && Drops(x, t, f)
    ensures |Kept(lines, t, f)| < |lines|
  {
    KeptNotLonger(lines[1..], t, f);
    if !Drops(lines[0], t, f) {
      KeptShorter(lines[1..], t, f, x);
    }
    hide Drops;
  }

  lemma {:induction false} KeptNotLonger(lines: seq<string>, t: Settings, f: Flags)
    ensures |Kept(lines, t, f)| <= |lines|
    ensures forall l :: l in Kept(lines, t, f) ==> l in lines
  {
    if lines != [] {
      KeptNotLonger(lines[1..], t, f);
    }
    hide Drops;
  }

  // ---- undoing the edit

  /** Whether the file is put back. The guards are those of the code: no suffix, or its
    * line already there, or a suffix that is not empty, has no semicolon (which the edit
    * replaces and the deletion does not) and no line break, and, should it end in a
    * carriage return, whose line is not among the original ones.
    */
  predicate SearchUndone(contents: string, suffix: Option<string>) {
    match suffix
    case None => true
    case Some(s) =>
      || FlagOf(contents, AddedSearch(suffix)) == WasThere
      || (&& s != "" && ';' !in Clipped(s) && '\n' !in Clipped(s)
          && !(Clipped(s)[|Clipped(s)| - 1] == '\r' && DeletedSearch(suffix) in Tokens(CString(contents))))
  }

  /** The lines an addition puts before the original ones. */
  function FrontLines(flag: Flag, line: string): seq<string> {
    if flag == Added then Tokens(line) else []
  }

  lemma FrontTokens(flag: Flag, line: string, rest: string)
    ensures Tokens(Front(flag, line) + rest) == FrontLines(flag, line) + Tokens(rest)
  {
    hide Tokens;
    if flag == Added {
      TokensAppend(line, rest);
      assert Front(flag, line) + rest == line + "\n" + rest;
    } else {
      assert Front(flag, line) + rest == rest;
      assert FrontLines(flag, line) + Tokens(rest) == Tokens(rest);
    }
  }

  lemma SearchShape(suffix: Option<string>)
    requires suffix.Some?
    ensures
      var l := AddedSearch(suffix);
      |l| == 7 + |Clipped(suffix.value)| && l[0] == 's' && (forall i :: 0 <= i < 7 ==> l[i] == "search "[i])
      && (forall i :: 7 <= i < |l| ==>
            l[i] == if Clipped(suffix.value)[i - 7] == ';' then ' ' else Clipped(suffix.value)[i - 7])
  {
    var text := "search " + Clipped(suffix.value);
    assert text[..7] == "search ";
    assert Replaced(text)[0] == 's';
    hide Clipped, Replaced;
  }

  lemma SearchHasNoNul(suffix: Option<string>)
    requires suffix.Some? ==> '\0' !in suffix.value
    ensures '\0' !in AddedSearch(suffix)
  {
    if suffix.Some? {
      SearchShape(suffix);
      var l, s := AddedSearch(suffix), Clipped(suffix.value);
      assert forall i :: 0 <= i < |s| ==> s[i] == suffix.value[i];
      assert "search "[0] != '\0' && '\0' !in "search ";
      hide AddedSearch, Clipped;
      forall i | 0 <= i < |l| ensures l[i] != '\0' {
        if i >= 7 {
          assert suffix.value[i - 7] in suffix.value;
        } else {
          assert "search "[i] in "search ";
        }
      }
    }
  }

  lemma FrontHasNoNul(flag: Flag, line: string)
    requires '\0' !in line
    ensures '\0' !in Front(flag, line)
  {
  }

  lemma ThreeFronts(f: Flags, l1: string, l2: string, l3: string, c: string)
    requires '\0' !in l1 && '\0' !in l2 && '\0' !in l3
    ensures
      Tokens(CString(Front(f.ns1, l1) + Front(f.ns2, l2) + Front(f.search, l3) + c)) ==
        FrontLines(f.ns1, l1) + FrontLines(f.ns2, l2) + FrontLines(f.search, l3) + Tokens(CString(c))
  {
    var a, b, d := Front(f.ns1, l1), Front(f.ns2, l2), Front(f.search, l3);
    FrontHasNoNul(f.ns1, l1);
    FrontHasNoNul(f.ns2, l2);
    FrontHasNoNul(f.search, l3);
    var rest := CString(c);
    FrontTokens(f.search, l3, rest);
    FrontTokens(f.ns2, l2, d + rest);
    FrontTokens(f.ns1, l1, b + (d + rest));
    hide Front, Tokens, CString, FrontLines;
    JoinFour(a, b, d, rest);
    JoinFour(a, b, d, c);
    CStringAppend(d, c);
    CStringAppend(b, d + c);
    CStringAppend(a, b + (d + c));
    JoinFour(FrontLines(f.ns1, l1), FrontLines(f.ns2, l2), FrontLines(f.search, l3), Tokens(rest));
  }

  lemma JoinFour<T>(a: seq<T>, b: seq<T>, c: seq<T>, d: seq<T>)
    ensures a + (b + (c + d)) == a + b + c + d
  {
  }

  /** The lines of the file after the addition. */
  lemma AddedLines(c: string, t: Settings)
    requires t.suffix.Some? ==> '\0' !in t.suffix.value
    ensures
      var f := FlagsOf(c, t);
      Tokens(CString(AfterAdd(c, t))) ==
        FrontLines(f.ns1, ServerLine(t.ns1)) + FrontLines(f.ns2, ServerLine(t.ns2))
        + FrontLines(f.search, AddedSearch(t.suffix)) + Tokens(CString(c))
  {
    ServerLineShape(t.ns1);
    ServerLineShape(t.ns2);
    SearchHasNoNul(t.suffix);
    hide ServerLine, AddedSearch, FlagsOf, Tokens, CString;
    ThreeFronts(FlagsOf(c, t), ServerLine(t.ns1), ServerLine(t.ns2), AddedSearch(t.suffix), c);
  }

  // ---- the lines that are dropped again

  /** An added nameserver line is dropped again, and no original line is one. */
  lemma ServerDropped(c: string, t: Settings, a: Address, flag: Flag)
    requires (a == t.ns1 && flag == FlagsOf(c, t).ns1) || (a == t.ns2 && flag == FlagsOf(c, t).ns2)
    ensures Kept(FrontLines(flag, ServerLine(a)), t, FlagsOf(c, t)) == []
    ensures flag == Added ==> ServerLine(a) !in Tokens(CString(c))
  {
    var line := ServerLine(a);
    if flag == Added {
      ServerLineShape(a);
      TokensOne(line);
      assert Drops(line, t, FlagsOf(c, t));
      PresentExactly(CString(c), line);
      assert Chomp(line) == line;
      hide Tokens, ServerLine, Drops, CString, Present;
      assert [line][1..] == [];
    }
  }

  /** What remains of the edited file: of the nameserver lines that were added, nothing. */
  lemma Remainder(c: string, t: Settings)
    requires t.suffix.Some? ==> '\0' !in t.suffix.value
    ensures
      var f := FlagsOf(c, t);
      Kept(Tokens(CString(AfterAdd(c, t))), t, f) ==
        Kept(FrontLines(f.search, AddedSearch(t.suffix)), t, f) + Kept(Tokens(CString(c)), t, f)
  {
    var f := FlagsOf(c, t);
    var l1, l2 := FrontLines(f.ns1, ServerLine(t.ns1)), FrontLines(f.ns2, ServerLine(t.ns2));
    var l3, orig := FrontLines(f.search, AddedSearch(t.suffix)), Tokens(CString(c));
    AddedLines(c, t);
    ServerDropped(c, t, t.ns1, f.ns1);
    ServerDropped(c, t, t.ns2, f.ns2);
    hide Kept, FrontLines, Tokens, CString, AfterAdd, FlagsOf, ServerLine, AddedSearch;
    JoinFour(l1, l2, l3, orig);
    KeptAppend(l1, l2 + (l3 + orig), t, f);
    KeptAppend(l2, l3 + orig, t, f);
    KeptAppend(l3, orig, t, f);
  }

  /** Of the original lines only the search line can be dropped. */
  lemma OriginalDropped(c: string, t: Settings, l: string)
    requires l in Tokens(CString(c))
    ensures Drops(l, t, FlagsOf(c, t)) <==>
              DeletedSearch(t.suffix) != "" && l == DeletedSearch(t.suffix) && FlagsOf(c, t).search == Added
  {
    ServerDropped(c, t, t.ns1, FlagsOf(c, t).ns1);
    ServerDropped(c, t, t.ns2, FlagsOf(c, t).ns2);
    hide Tokens, CString, FlagsOf, ServerLine, DeletedSearch, Kept, FrontLines;
  }

  /** The search line that is added is the one that is looked for. */
  lemma SameSearch(s: string)
    requires s != "" && ';' !in Clipped(s)
    ensures AddedSearch(Some(s)) == DeletedSearch(Some(s))
  {
    SearchShape(Some(s));
    var a, d := AddedSearch(Some(s)), DeletedSearch(Some(s));
    assert forall i :: 7 <= i < |d| ==> d[i] == Clipped(s)[i - 7];
    assert d[..7] == "search ";
    assert forall i :: 0 <= i < 7 ==> d[i] == d[..7][i];
    assert forall i :: 0 <= i < |d| ==> a[i] == d[i];
  }

  predicate GoodSearch(s: string) {
    s != "" && ';' !in Clipped(s) && '\n' !in Clipped(s)
  }

  lemma GoodSearchDropped(c: string, t: Settings)
    requires t.suffix.Some? && GoodSearch(t.suffix.value) && FlagsOf(c, t).search == Added
    ensures Kept(FrontLines(Added, AddedSearch(t.suffix)), t, FlagsOf(c, t)) == []
  {
    var s := t.suffix.value;
    var line := AddedSearch(t.suffix);
    SameSearch(s);
    SearchShape(t.suffix);
    assert '\n' !in line by {
      assert '\n' !in "search ";
      assert forall i :: 0 <= i < 7 ==> "search "[i] in "search ";
      assert forall i :: 0 <= i < |Clipped(s)| ==> Clipped(s)[i] in Clipped(s);
    }
    TokensOne(line);
    assert Drops(line, t, FlagsOf(c, t));
    hide Tokens, Drops, AddedSearch, FlagsOf;
    assert [line][1..] == [];
  }

  /** A good search line among the original ones, although it was not found, ends in a
    * carriage return.
    */
  lemma GoodSearchAmong(c: string, t: Settings)
    requires t.suffix.Some? && GoodSearch(t.suffix.value) && FlagsOf(c, t).search == Added
    requires DeletedSearch(t.suffix) in Tokens(CString(c))
    ensures Clipped(t.suffix.value)[|Clipped(t.suffix.value)| - 1] == '\r'
  {
    var d := DeletedSearch(t.suffix);
    SameSearch(t.suffix.value);
    PresentExactly(CString(c), d);
    assert d[|d| - 1] == Clipped(t.suffix.value)[|Clipped(t.suffix.value)| - 1];
    hide Tokens, CString, Present, AddedSearch;
    assert Chomp(d) != d;
  }

  /** A search line that is not good leaves a line behind that was not there. */
  lemma BadSearchStays(c: string, t: Settings)
    requires t.suffix.Some? && !GoodSearch(t.suffix.value) && FlagsOf(c, t).search == Added
    ensures
      var lines := Tokens(AddedSearch(t.suffix));
      lines != [] && !Drops(lines[0], t, FlagsOf(c, t))
  {
    var a, d, s := AddedSearch(t.suffix), DeletedSearch(t.suffix), t.suffix.value;
    SearchShape(t.suffix);
    var first := a[..IndexOf(a, '\n')];
    TokensSplit(a);
    assert first == Tokens(a)[0] && first[0] == 's';
    ServerLineShape(t.ns1);
    ServerLineShape(t.ns2);
    if s != "" {
      if '\n' in Clipped(s) {
        assert '\n' in d;
      } else {
        var k :| 0 <= k < |Clipped(s)| && Clipped(s)[k] == ';';
        assert a[k + 7] == ' ' && d[k + 7] == ';';
        BreakFree(s);
        assert first == a;
      }
    }
    hide Tokens, AddedSearch, DeletedSearch, Clipped, ServerLine, FlagsOf, IndexOf;
  }

  lemma BreakFree(s: string)
    requires '\n' !in Clipped(s)
    ensures
      var a := AddedSearch(Some(s));
      IndexOf(a, '\n') == |a|
  {
    SearchShape(Some(s));
    var a := AddedSearch(Some(s));
    var i := IndexOf(a, '\n');
    assert '\n' !in "search ";
    assert forall j :: 0 <= j < 7 ==> "search "[j] in "search ";
    assert forall j :: 0 <= j < |Clipped(s)| ==> Clipped(s)[j] in Clipped(s);
    hide AddedSearch, Clipped, IndexOf;
  }

  lemma UndoneWhen(c: string, t: Settings)
    requires t.suffix.Some? ==> '\0' !in t.suffix.value
    requires SearchUndone(c, t.suffix)
    ensures Kept(Tokens(CString(AfterAdd(c, t))), t, FlagsOf(c, t)) == Tokens(CString(c))
  {
    var f, orig := FlagsOf(c, t), Tokens(CString(c));
    Remainder(c, t);
    assert Kept(FrontLines(f.search, AddedSearch(t.suffix)), t, f) == [] by {
      if f.search == Added {
        GoodSearchDropped(c, t);
      }
    }
    forall l | l in orig ensures !Drops(l, t, f) {
      OriginalDropped(c, t, l);
      if l == DeletedSearch(t.suffix) && f.search == Added {
        GoodSearchAmong(c, t);
      }
    }
    KeptAll(orig, t, f);
    hide Kept, Tokens, CString, AfterAdd, FlagsOf, FrontLines;
  }

  lemma NotUndoneWhen(c: string, t: Settings)
    requires t.suffix.Some? ==> '\0' !in t.suffix.value
    requires !SearchUndone(c, t.suffix)
    ensures Kept(Tokens(CString(AfterAdd(c, t))), t, FlagsOf(c, t)) != Tokens(CString(c))
  {
    var f, orig := FlagsOf(c, t), Tokens(CString(c));
    var lines := Tokens(AddedSearch(t.suffix));
    Remainder(c, t);
    SearchShape(t.suffix);
    assert f.search == Added;
    if GoodSearch(t.suffix.value) {
      GoodSearchDropped(c, t);
      OriginalDropped(c, t, DeletedSearch(t.suffix));
      KeptShorter(orig, t, f, DeletedSearch(t.suffix));
    } else {
      BadSearchStays(c, t);
      MoreOften(lines, orig, t, f);
    }
  }

  lemma MoreOften(lines: seq<string>, orig: seq<string>, t: Settings, f: Flags)
    requires lines != [] && !Drops(lines[0], t, f)
    ensures Kept(lines, t, f) + Kept(orig, t, f) != orig
  {
    var x := lines[0];
    KeptCount(lines, t, f, x);
    KeptCount(orig, t, f, x);
    hide Drops, Kept;
    assert multiset(Kept(lines, t, f) + Kept(orig, t, f))[x] == multiset(lines)[x] + multiset(orig)[x];
    assert x in lines;
  }

  /** Deleting after adding leaves exactly the original non-blank lines, in order, under
    * exactly this condition, whatever the nameservers and whatever was there already. A
    * NUL byte ends the file for both functions.
    */
  lemma DeleteUndoesAddExactly(c: string, t: Settings)
    requires t.suffix.Some? ==> '\0' !in t.suffix.value
    ensures AfterDelete(AfterAdd(c, t), t, FlagsOf(c, t)) == Unlines(Tokens(CString(c))) <==>
              SearchUndone(c, t.suffix)
  {
    if SearchUndone(c, t.suffix) {
      UndoneWhen(c, t);
    } else {
      NotUndoneWhen(c, t);
      KeptNotLonger(Tokens(CString(AfterAdd(c, t))), t, FlagsOf(c, t));
      TokensUnlines(Kept(Tokens(CString(AfterAdd(c, t))), t, FlagsOf(c, t)));
      TokensUnlines(Tokens(CString(c)));
    }
    hide Kept, Tokens, CString, AfterAdd, FlagsOf, Unlines, SearchUndone;
  }
}
