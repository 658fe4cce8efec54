/**
 * The character-substitution tables the SBML writer runs over names, ids
 * and notes before they reach the document, and the rule that an SBML id
 * may not start with a digit.
 *
 * Each table is a sequence of (pattern, replacement) pairs applied one
 * after the other, in the table's order, each pair by `ReplaceAll`.
 */
module Sanitize {
  import opened Strings

  type Pattern = s: string | |s| > 0 witness "_"

  /** The replacement the writer uses for the literal text `BEL`. */
  const Degree: string := "&#176"

  /** The characters `Degree` is made of. */
  predicate DegreeChar(c: char)
  {
    c == '&' || c == '#' || c == '1' || c == '7' || c == '6'
  }

  /** The characters every replacement text of the three tables is made of. */
  predicate SafeChar(c: char)
  {
    'a' <= c <= 'z' || c == '_' || DegreeChar(c)
  }

  /**
   * The replacement texts of the three tables: nonempty, made of
   * `SafeChar`s, and containing `&` only as the whole entity `&#176`.
   */
  type SafeText = s: string | |s| > 0 && (forall i :: 0 <= i < |s| ==> SafeChar(s[i])) &&
                              ('&' in s ==> s == "&#176") witness "_"

  /** One `str.replace(pat, rep)` step of a table. */
  datatype Subst = Subst(pat: Pattern, rep: SafeText)

  /** The table used for SBML ids (`convertSpecialChar`). */
  const IdTable: seq<Subst> := [
    Subst("&", "_and"), Subst("<", "_lessthan_"), Subst(">", "_greaterthan_"),
    Subst("BEL", "&#176"), Subst("-", "_minus_"), Subst("'", "_prime_"),
    Subst("+", "_plus_"), Subst("*", "_star_"), Subst("/", "_slash_"),
    Subst("(", "_bo_"), Subst(")", "_bc_"), Subst("[", "_sbo_"),
    Subst("]", "_sbc_"), Subst(".", "_dot_"), Subst(" ", "_")]

  /** The shorter table used for display names (`convertSpecialCharshot`). */
  const NameTable: seq<Subst> := [
    Subst("BEL", "&#176"), Subst("'", "_prime_"), Subst("\\", "_slash_"),
    Subst("/", "_slash_"), Subst("[", "_sbo_"), Subst("]", "_sbc_"),
    Subst(": ", "_"), Subst(" ", "_")]

  /** The table used for notes text (`convertNotesSpecialChar`). */
  const NotesTable: seq<Subst> := [
    Subst("&", "_and"), Subst("<", "_lessthan_"), Subst(">", "_greaterthan_"),
    Subst("BEL", "&#176")]

  /** Characters that never survive the id table. */
  const IdForbidden: set<char> :=
    {'<', '>', '-', '\'', '+', '*', '/', '(', ')', '[', ']', '.', ' '}

  /** Characters that never survive the name table. */
  const NameForbidden: set<char> := {'\'', '\\', '/', '[', ']', ' '}

  /** Characters that never survive the notes table. */
  const NotesForbidden: set<char> := {'<', '>'}

  /** The steps of the table from position `k` on, applied left to right. */
  function ApplyFrom(t: seq<Subst>, k: nat, s: string): string
    requires k <= |t|
    decreases |t| - k
  {
    if k == |t| then s else ApplyFrom(t, k + 1, ReplaceAll(s, t[k].pat, t[k].rep))
  }

  /** The whole table, applied left to right. */
  function ApplyTable(t: seq<Subst>, s: string): (r: string)
    ensures |s| > 0 ==> |r| > 0
  {
    if |s| > 0 then
      ApplyFromNonEmpty(t, 0, s);
      ApplyFrom(t, 0, s)
    else
      ApplyFrom(t, 0, s)
  }

  /** Replacements are nonempty, so a nonempty text stays nonempty. */
  lemma {:induction false} ApplyFromNonEmpty(t: seq<Subst>, k: nat, s: string)
    requires k <= |t| && |s| > 0
    ensures |ApplyFrom(t, k, s)| > 0
    decreases |t| - k
  {
    if k < |t| {
      ApplyFromNonEmpty(t, k + 1, ReplaceAll(s, t[k].pat, t[k].rep));
    }
  }

  /** A character absent from the text and from every replacement stays absent. */
  lemma {:induction false} ApplyFromKeepsOut(t: seq<Subst>, k: nat, s: string, c: char)
    requires k <= |t| && c !in s
    requires forall j :: k <= j < |t| ==> c !in t[j].rep
    ensures c !in ApplyFrom(t, k, s)
    decreases |t| - k
  {
    if k < |t| {
      ApplyFromKeepsOut(t, k + 1, ReplaceAll(s, t[k].pat, t[k].rep), c);
    }
  }

  /**
   * A character the table replaces outright, by a one-character pattern,
   * is gone from the result when it is not a `SafeChar`: no replacement
   * text can bring it back.
   */
  lemma {:induction false} UnsafeRemoved(t: seq<Subst>, k: nat, s: string, j: nat)
    requires k <= j < |t| && |t[j].pat| == 1 && !SafeChar(t[j].pat[0])
    ensures t[j].pat[0] !in ApplyFrom(t, k, s)
    decreases j - k
  {
    var c := t[j].pat[0];
    forall i | j <= i < |t| ensures c !in t[i].rep {
      var r := t[i].rep;
      forall n | 0 <= n < |r| ensures r[n] != c {
        assert SafeChar(r[n]);
      }
    }
    if k < j {
      UnsafeRemoved(t, k + 1, ReplaceAll(s, t[k].pat, t[k].rep), j);
    } else {
      assert c !in t[j].rep;
      assert t[j].pat == [c];
      ReplaceAllRemovesChar(s, c, t[j].rep);
      ApplyFromKeepsOut(t, j + 1, ReplaceAll(s, t[j].pat, t[j].rep), c);
    }
  }

  /** The characters of the `_<id>_<index>_` suffixes the writer appends to names. */
  predicate IndexChar(c: char)
  {
    c == '_' || IsDigit(c)
  }

  /** A suffix no pattern of the table can touch survives the table unchanged. */
  lemma {:induction false} ApplyFromSuffix(t: seq<Subst>, k: nat, a: string, b: string)
    requires k <= |t|
    requires forall j :: 0 <= j < |t| ==> forall i :: 0 <= i < |b| ==> b[i] !in t[j].pat
    ensures ApplyFrom(t, k, a + b) == ApplyFrom(t, k, a) + b
    decreases |t| - k
  {
    if k < |t| {
      ReplaceAllAppend(a, b, t[k].pat, t[k].rep);
      ApplyFromSuffix(t, k + 1, ReplaceAll(a, t[k].pat, t[k].rep), b);
    }
  }

  lemma IdTableIgnoresIndexChars()
    ensures forall k :: 0 <= k < |IdTable| ==>
      forall j :: 0 <= j < |IdTable[k].pat| ==> !IndexChar(IdTable[k].pat[j])
  {
  }

  /** The id table leaves a trailing run of `IndexChar`s alone. */
  lemma IdTableSuffix(a: string, b: string)
    requires forall i :: 0 <= i < |b| ==> IndexChar(b[i])
    ensures ApplyTable(IdTable, a + b) == ApplyTable(IdTable, a) + b
  {
    IdTableIgnoresIndexChars();
    ApplyFromSuffix(IdTable, 0, a, b);
  }

  /** A leading character no pattern of the table contains stays in front. */
  lemma {:induction false} ApplyFromPrefix(t: seq<Subst>, k: nat, c: char, s: string)
    requires k <= |t|
    requires forall j :: 0 <= j < |t| ==> c !in t[j].pat
    ensures ApplyFrom(t, k, [c] + s) == [c] + ApplyFrom(t, k, s)
    decreases |t| - k
  {
    if k < |t| {
      var x := [c] + s;
      assert x[0] != t[k].pat[0];
      ReplaceAllCopies(x, 1, t[k].pat, t[k].rep);
      assert x[..1] == [c] && x[1..] == s;
      ApplyFromPrefix(t, k + 1, c, ReplaceAll(s, t[k].pat, t[k].rep));
    }
  }

  /** The id table leaves a leading `IndexChar` in place. */
  lemma IdTablePrefix(c: char, s: string)
    requires IndexChar(c)
    ensures ApplyTable(IdTable, [c] + s) == [c] + ApplyTable(IdTable, s)
  {
    IdTableIgnoresIndexChars();
    ApplyFromPrefix(IdTable, 0, c, s);
  }

  lemma IdTableKeepsHead(n: string)
    requires |n| > 0 && IndexChar(n[0])
    ensures |ApplyTable(IdTable, n)| > 0 && ApplyTable(IdTable, n)[0] == n[0]
  {
    assert n == [n[0]] + n[1..];
    IdTablePrefix(n[0], n[1..]);
  }

  /** Every `&` of `s` is the first character of a `Degree` entity. */
  predicate AmpOnlyInDegree(s: string)
  {
    forall i :: 0 <= i < |s| && s[i] == '&' ==> i + 5 <= |s| && s[i..i + 5] == Degree
  }

  lemma AmpConcat(a: string, b: string)
    requires AmpOnlyInDegree(a) && AmpOnlyInDegree(b)
    ensures AmpOnlyInDegree(a + b)
  {
    forall i | 0 <= i < |a + b| && (a + b)[i] == '&'
      ensures i + 5 <= |a + b| && (a + b)[i..i + 5] == Degree
    {
      if i < |a| {
        assert (a + b)[i..i + 5] == a[i..i + 5];
      } else {
        assert (a + b)[i..i + 5] == b[i - |a|..i - |a| + 5];
      }
    }
  }

  lemma AmpSuffix(s: string, k: nat)
    requires AmpOnlyInDegree(s) && k <= |s|
    ensures AmpOnlyInDegree(s[k..])
  {
    forall i | 0 <= i < |s[k..]| && s[k..][i] == '&'
      ensures i + 5 <= |s[k..]| && s[k..][i..i + 5] == Degree
    {
      assert s[k + i] == '&';
      assert s[k..][i..i + 5] == s[k + i..k + i + 5];
    }
  }

  /** A prefix that ends outside every `Degree` entity keeps the property. */
  lemma AmpPrefix(s: string, k: nat)
    requires AmpOnlyInDegree(s) && k <= |s|
    requires forall i :: k <= i < |s| ==> !DegreeChar(s[i])
    ensures AmpOnlyInDegree(s[..k])
  {
    forall i | 0 <= i < k && s[..k][i] == '&'
      ensures i + 5 <= k && s[..k][i..i + 5] == Degree
    {
      assert s[i] == '&';
      assert s[i..i + 5] == Degree;
      assert s[i + 4] == Degree[4];
      assert s[..k][i..i + 5] == s[i..i + 5];
    }
  }

  lemma AmpDegree()
    ensures AmpOnlyInDegree(Degree)
  {
    assert Degree[0..5] == Degree;
  }

  /** A replacement that cannot touch an entity keeps `&` inside entities. */
  lemma {:induction false} AmpKeep(s: string, pat: Pattern, rep: SafeText)
    requires !DegreeChar(pat[0])
    requires AmpOnlyInDegree(s)
    ensures AmpOnlyInDegree(ReplaceAll(s, pat, rep))
    decreases |s|
  {
    AmpDegree();
    if s != [] {
      if s[0] == '&' {
        assert s[..5] == Degree;
        ReplaceAllCopies(s, 5, pat, rep);
        AmpSuffix(s, 5);
        AmpKeep(s[5..], pat, rep);
        AmpConcat(Degree, ReplaceAll(s[5..], pat, rep));
      } else if pat <= s {
        AmpSuffix(s, |pat|);
        AmpKeep(s[|pat|..], pat, rep);
        AmpConcat(rep, ReplaceAll(s[|pat|..], pat, rep));
      } else {
        AmpSuffix(s, 1);
        AmpKeep(s[1..], pat, rep);
        AmpConcat([s[0]], ReplaceAll(s[1..], pat, rep));
      }
    }
  }

  /** No pattern of `t` from position `j` on starts inside an entity. */
  predicate KeepsAmp(t: seq<Subst>, j: nat)
  {
    forall k :: j <= k < |t| ==> !DegreeChar(t[k].pat[0])
  }

  lemma {:induction false} AmpKeepFrom(t: seq<Subst>, k: nat, s: string)
    requires k <= |t| && KeepsAmp(t, k) && AmpOnlyInDegree(s)
    ensures AmpOnlyInDegree(ApplyFrom(t, k, s))
    decreases |t| - k
  {
    if k < |t| {
      AmpKeep(s, t[k].pat, t[k].rep);
      AmpKeepFrom(t, k + 1, ReplaceAll(s, t[k].pat, t[k].rep));
    }
  }

  /**
   * A table that first replaces every `&` and otherwise only makes steps
   * `AmpKeep` accepts leaves `&` only inside `&#176`.
   */
  lemma AmpAfterTable(t: seq<Subst>, s: string)
    requires |t| > 0 && t[0].pat == "&" && '&' !in t[0].rep && KeepsAmp(t, 1)
    ensures AmpOnlyInDegree(ApplyTable(t, s))
  {
    var s1 := ReplaceAll(s, "&", t[0].rep);
    ReplaceAllRemovesChar(s, '&', t[0].rep);
    AmpKeepFrom(t, 1, s1);
  }

  lemma IdTablePatterns()
    ensures KeepsAmp(IdTable, 1)
  {
  }

  lemma NotesTablePatterns()
    ensures KeepsAmp(NotesTable, 1)
  {
  }

  /** What the id table guarantees about its output. */
  predicate IdLegal(r: string)
  {
    NoneOf(r, IdForbidden) && AmpOnlyInDegree(r)
  }

  /*
   * One lemma per character a table removes: each names the table step
   * that replaces the character outright.
   */

  lemma IdTableRemovesLt(s: string)
    ensures '<' !in ApplyTable(IdTable, s)
  {
    UnsafeRemoved(IdTable, 0, s, 1);
  }

  lemma IdTableRemovesGt(s: string)
    ensures '>' !in ApplyTable(IdTable, s)
  {
    UnsafeRemoved(IdTable, 0, s, 2);
  }

  lemma IdTableRemovesMinus(s: string)
    ensures '-' !in ApplyTable(IdTable, s)
  {
    UnsafeRemoved(IdTable, 0, s, 4);
  }

  lemma IdTableRemovesPrime(s: string)
    ensures '\'' !in ApplyTable(IdTable, s)
  {
    UnsafeRemoved(IdTable, 0, s, 5);
  }

  lemma IdTableRemovesPlus(s: string)
    ensures '+' !in ApplyTable(IdTable, s)
  {
    UnsafeRemoved(IdTable, 0, s, 6);
  }

  lemma IdTableRemovesStar(s: string)
    ensures '*' !in ApplyTable(IdTable, s)
  {
    UnsafeRemoved(IdTable, 0, s, 7);
  }

  lemma IdTableRemovesSlash(s: string)
    ensures '/' !in ApplyTable(IdTable, s)
  {
    UnsafeRemoved(IdTable, 0, s, 8);
  }

  lemma IdTableRemovesBo(s: string)
    ensures '(' !in ApplyTable(IdTable, s)
  {
    UnsafeRemoved(IdTable, 0, s, 9);
  }

  lemma IdTableRemovesBc(s: string)
    ensures ')' !in ApplyTable(IdTable, s)
  {
    UnsafeRemoved(IdTable, 0, s, 10);
  }

  lemma IdTableRemovesSbo(s: string)
    ensures '[' !in ApplyTable(IdTable, s)
  {
    UnsafeRemoved(IdTable, 0, s, 11);
  }

  lemma IdTableRemovesSbc(s: string)
    ensures ']' !in ApplyTable(IdTable, s)
  {
    UnsafeRemoved(IdTable, 0, s, 12);
  }

  lemma IdTableRemovesDot(s: string)
    ensures '.' !in ApplyTable(IdTable, s)
  {
    UnsafeRemoved(IdTable, 0, s, 13);
  }

  lemma IdTableRemovesSpace(s: string)
    ensures ' ' !in ApplyTable(IdTable, s)
  {
    UnsafeRemoved(IdTable, 0, s, 14);
  }

  lemma NameTableRemovesPrime(s: string)
    ensures '\'' !in ApplyTable(NameTable, s)
  {
    UnsafeRemoved(NameTable, 0, s, 1);
  }

  lemma NameTableRemovesBackslash(s: string)
    ensures '\\' !in ApplyTable(NameTable, s)
  {
    UnsafeRemoved(NameTable, 0, s, 2);
  }

  lemma NameTableRemovesSlash(s: string)
    ensures '/' !in ApplyTable(NameTable, s)
  {
    UnsafeRemoved(NameTable, 0, s, 3);
  }

  lemma NameTableRemovesSbo(s: string)
    ensures '[' !in ApplyTable(NameTable, s)
  {
    UnsafeRemoved(NameTable, 0, s, 4);
  }

  lemma NameTableRemovesSbc(s: string)
    ensures ']' !in ApplyTable(NameTable, s)
  {
    UnsafeRemoved(NameTable, 0, s, 5);
  }

  lemma NameTableRemovesSpace(s: string)
    ensures ' ' !in ApplyTable(NameTable, s)
  {
    UnsafeRemoved(NameTable, 0, s, 7);
  }

  lemma NotesTableRemovesLt(s: string)
    ensures '<' !in ApplyTable(NotesTable, s)
  {
    UnsafeRemoved(NotesTable, 0, s, 1);
  }

  lemma NotesTableRemovesGt(s: string)
    ensures '>' !in ApplyTable(NotesTable, s)
  {
    UnsafeRemoved(NotesTable, 0, s, 2);
  }

  lemma IdTableLegal(s: string)
    ensures IdLegal(ApplyTable(IdTable, s))
  {
    var r := ApplyTable(IdTable, s);
    IdTableRemovesLt(s);
    IdTableRemovesGt(s);
    IdTableRemovesMinus(s);
    IdTableRemovesPrime(s);
    IdTableRemovesPlus(s);
    IdTableRemovesStar(s);
    IdTableRemovesSlash(s);
    IdTableRemovesBo(s);
    IdTableRemovesBc(s);
    IdTableRemovesSbo(s);
    IdTableRemovesSbc(s);
    IdTableRemovesDot(s);
    IdTableRemovesSpace(s);
    forall i | 0 <= i < |r| ensures r[i] !in IdForbidden {
      assert r[i] in r;
    }
    IdTablePatterns();
    AmpAfterTable(IdTable, s);
  }

  lemma NameTableLegal(s: string)
    ensures NoneOf(ApplyTable(NameTable, s), NameForbidden)
  {
    var r := ApplyTable(NameTable, s);
    NameTableRemovesPrime(s);
    NameTableRemovesBackslash(s);
    NameTableRemovesSlash(s);
    NameTableRemovesSbo(s);
    NameTableRemovesSbc(s);
    NameTableRemovesSpace(s);
    forall i | 0 <= i < |r| ensures r[i] !in NameForbidden {
      assert r[i] in r;
    }
  }

  /**
   * `convertSpecialChar`: runs the id table over `s`. The result has none
   * of the characters the table replaces and keeps `&` only inside `&#176`.
   */
  method ConvertSpecialChar(s: string) returns (r: string)
    ensures r == ApplyTable(IdTable, s)
    ensures IdLegal(r)
    ensures |s| > 0 ==> |r| > 0
  {
    r := s;
    for k := 0 to |IdTable|
      invariant ApplyFrom(IdTable, k, r) == ApplyTable(IdTable, s)
    {
      r := ReplaceAll(r, IdTable[k].pat, IdTable[k].rep);
    }
    IdTableLegal(s);
  }

  /**
   * `convertSpecialCharshot`: runs the name table over `s`. The result has
   * no quote, slash, backslash, square bracket or space.
   */
  method ConvertSpecialCharShort(s: string) returns (r: string)
    ensures r == ApplyTable(NameTable, s)
    ensures NoneOf(r, NameForbidden)
    ensures |s| > 0 ==> |r| > 0
  {
    r := s;
    for k := 0 to |NameTable|
      invariant ApplyFrom(NameTable, k, r) == ApplyTable(NameTable, s)
    {
      r := ReplaceAll(r, NameTable[k].pat, NameTable[k].rep);
    }
    NameTableLegal(s);
  }

  /** The notes text as the writer stores it: escaped, then stripped. */
  function CleanNotes(s: string): string
  {
    Strip(ApplyTable(NotesTable, s), Whitespace)
  }

  lemma NotesTableLegal(s: string)
    ensures NoneOf(ApplyTable(NotesTable, s), NotesForbidden)
    ensures AmpOnlyInDegree(ApplyTable(NotesTable, s))
  {
    var r := ApplyTable(NotesTable, s);
    NotesTablePatterns();
    NotesTableRemovesLt(s);
    NotesTableRemovesGt(s);
    forall i | 0 <= i < |r| ensures r[i] !in NotesForbidden {
      assert r[i] in r;
    }
    AmpAfterTable(NotesTable, s);
  }

  /** Stripping whitespace keeps both escaping guarantees. */
  lemma StripKeepsLegal(e: string, f: set<char>)
    requires NoneOf(e, f) && AmpOnlyInDegree(e)
    ensures NoneOf(Strip(e, Whitespace), f) && AmpOnlyInDegree(Strip(e, Whitespace))
  {
    var l := TrimLeft(e, Whitespace);
    AmpSuffix(e, |e| - |l|);
    var r := TrimRight(l, Whitespace);
    AmpPrefix(l, |r|);
  }

  /**
   * The notes text has no `<` or `>`, keeps `&` only in `&#176`, and
   * neither begins nor ends with whitespace.
   */
  lemma CleanNotesLegal(s: string)
    ensures NoneOf(CleanNotes(s), NotesForbidden)
    ensures AmpOnlyInDegree(CleanNotes(s))
    ensures var r := CleanNotes(s); r != [] ==> r[0] !in Whitespace && r[|r| - 1] !in Whitespace
  {
    var e := ApplyTable(NotesTable, s);
    NotesTableLegal(s);
    StripKeepsLegal(e, NotesForbidden);
    var l := TrimLeft(e, Whitespace);
    var r := TrimRight(l, Whitespace);
    if r != [] {
      assert r[0] == l[0];
    }
  }

  /**
   * `convertNotesSpecialChar`: the notes table, then `strip(' \t\n\r')`.
   */
  method ConvertNotesSpecialChar(s: string) returns (r: string)
    ensures r == CleanNotes(s)
    ensures NoneOf(r, NotesForbidden) && AmpOnlyInDegree(r)
    ensures r != [] ==> r[0] !in Whitespace && r[|r| - 1] !in Whitespace
  {
    r := s;
    for k := 0 to |NotesTable|
      invariant ApplyFrom(NotesTable, k, r) == ApplyTable(NotesTable, s)
    {
      r := ReplaceAll(r, NotesTable[k].pat, NotesTable[k].rep);
    }
    r := Strip(r, Whitespace);
    CleanNotesLegal(s);
  }

  /**
   * `idBeginWith`: an id that would start with a digit gets a leading
   * underscore; any other name is kept.
   */
  function IdBeginWith(name: string): (r: string)
    requires |name| > 0
    ensures r == name || r == "_" + name
    ensures !IsDigit(r[0])
    ensures r == name <==> !IsDigit(name[0])
  {
    if IsDigit(name[0]) then "_" + name else name
  }
}
