/**
 * The permission and role catalogues and their `store` services. The
 * request name is normalised to a lower-case name and an upper-case
 * underscore code. A code already in the table is refused before any
 * insert. The insert itself is also refused by the table's unique key on
 * `code`. Permissions and roles share the same table shape
 * (id, code, name) and the same store logic.
 */
module Catalog {
  import opened Wrappers
  import opened Text
  import Cache

  /** A UUID: exactly sixteen bytes (`Uuid::from_slice` accepts no other length). */
  type Uuid = s: seq<Cache.Byte> | |s| == 16 witness [0, 0, 0, 0, 0, 0, 0, 0, 0, 0, 0, 0, 0, 0, 0, 0]

  /** A row of the permissions or roles table, and the response built from it. */
  datatype Entry = Entry(id: Uuid, code: string, name: string)

  datatype StoreError =
    | InvalidRequest        // the request DTO failed its own validation
    | NameAlreadyExist      // `validation.add("name", "Name already exist")`
    | StoreFailed           // the insert failed: "Failed to store ... to database"

  /**
   * `name.trim().to_lowercase()`: the lower case of the request name with
   * only whitespace cut from either end, and none left at either end.
   */
  function NormalName(requestName: string): (r: string)
    ensures exists i, j :: WhitespaceOutside(requestName, i, j) && r == Lower(requestName[i..j])
    ensures r != [] ==> !IsWhitespace(r[0]) && !IsWhitespace(r[|r| - 1])
    ensures forall i :: 0 <= i < |r| ==> !('A' <= r[i] <= 'Z')
    ensures |r| <= |requestName|
  {
    var t := Trim(requestName);
    TrimCutsWhitespace(requestName);
    if t == [] then Lower(t) else
      LowerKeepsWhitespace(t[0]);
      LowerKeepsWhitespace(t[|t| - 1]);
      Lower(t)
  }

  lemma TrimCutsWhitespace(s: string)
    ensures exists i, j :: WhitespaceOutside(s, i, j) && Lower(Trim(s)) == Lower(s[i..j])
  {
    var r := Trim(s);
    var i, j :| WhitespaceOutside(s, i, j) && r == s[i..j];
    assert Lower(r) == Lower(s[i..j]);
  }

  lemma LowerKeepsWhitespace(c: char)
    ensures IsWhitespace(AsciiLower(c)) == IsWhitespace(c)
  {
  }

  /**
   * `name.replace(" ", "_").to_uppercase()`: the name character by
   * character, a space becoming `_` and every other character its upper
   * case; so no space and no lower-case ASCII letter is left.
   */
  function CodeOf(name: string): (r: string)
    ensures |r| == |name| && forall i :: 0 <= i < |name| ==> r[i] == (if name[i] == ' ' then '_' else AsciiUpper(name[i]))
    ensures ' ' !in r
    ensures forall i :: 0 <= i < |r| ==> !('a' <= r[i] <= 'z')
  {
    var spaced := Replace(name, ' ', "_");
    var r := Upper(spaced);
    assert forall i :: 0 <= i < |r| ==> r[i] == ' ' ==> spaced[i] == ' ';
    r
  }

  /**
   * The code of a request name: as long as its normal name, with a `_`
   * exactly where the normal name has a space and otherwise the upper
   * case of its letter.
   */
  function RequestCode(requestName: string): (r: string)
    ensures var n := NormalName(requestName);
      |r| == |n| && forall i :: 0 <= i < |n| ==> r[i] == (if n[i] == ' ' then '_' else AsciiUpper(n[i]))
    ensures var n := NormalName(requestName);
      forall i :: 0 <= i < |n| ==> (r[i] == '_' <==> n[i] == ' ' || n[i] == '_')
  {
    CodeOf(NormalName(requestName))
  }

  /** A string without upper-case ASCII letters is its own lower case. */
  lemma LowerOfLower(s: string)
    requires forall i :: 0 <= i < |s| ==> !('A' <= s[i] <= 'Z')
    ensures Lower(s) == s
  {
    assert forall i :: 0 <= i < |s| ==> Lower(s)[i] == s[i];
  }

  lemma {:induction false} UpperIdempotent(s: string)
    ensures Upper(Upper(s)) == Upper(s)
  {
    assert forall i :: 0 <= i < |s| ==> Upper(Upper(s))[i] == Upper(s)[i];
  }

  /** Normalising a stored name again changes nothing. */
  lemma NormalNameIdempotent(requestName: string)
    ensures NormalName(NormalName(requestName)) == NormalName(requestName)
  {
    var n := NormalName(requestName);
    TrimOfTrimmed(n);
    LowerOfLower(n);
  }

  /** The role model's `code_exist` normalises its argument again; on a code that is a no-op. */
  lemma CodeIdempotent(name: string)
    ensures CodeOf(CodeOf(name)) == CodeOf(name)
  {
    var c := CodeOf(name);
    ReplaceAbsent(c, ' ', "_");
    UpperIdempotent(Replace(name, ' ', "_"));
  }

  lemma LowerAppend(a: string, b: string)
    ensures Lower(a + b) == Lower(a) + Lower(b)
  {
    assert forall i :: 0 <= i < |a + b| ==> Lower(a + b)[i] == (Lower(a) + Lower(b))[i];
  }

  lemma UpperAppend(a: string, b: string)
    ensures Upper(a + b) == Upper(a) + Upper(b)
  {
    assert forall i :: 0 <= i < |a + b| ==> Upper(a + b)[i] == (Upper(a) + Upper(b))[i];
  }

  predicate IsLetters(w: string)
  {
    forall i :: 0 <= i < |w| ==> 'A' <= w[i] <= 'Z' || 'a' <= w[i] <= 'z'
  }

  lemma UpperOfLower(w: string)
    ensures Upper(Lower(w)) == Upper(w)
  {
    assert forall i :: 0 <= i < |w| ==> Upper(Lower(w))[i] == Upper(w)[i];
  }

  lemma TwoWordName(w1: string, w2: string)
    requires w1 != [] && w2 != [] && IsLetters(w1) && IsLetters(w2)
    ensures NormalName(w1 + " " + w2) == Lower(w1) + " " + Lower(w2)
  {
    var s := w1 + " " + w2;
    assert s[0] == w1[0] && s[|s| - 1] == w2[|w2| - 1];
    TrimOfTrimmed(s);
    SpaceAndUnderscore();
    LowerAppend(w1 + " ", w2);
    LowerAppend(w1, " ");
  }

  lemma SpaceAndUnderscore()
    ensures Replace(" ", ' ', "_") == "_"
    ensures Upper("_") == "_"
    ensures Lower(" ") == " "
  {
  }

  lemma TwoWordCode(l1: string, l2: string)
    requires ' ' !in l1 && ' ' !in l2
    ensures CodeOf(l1 + " " + l2) == Upper(l1) + "_" + Upper(l2)
  {
    SpaceAndUnderscore();
    ReplaceAppend(l1 + " ", l2, ' ', "_");
    ReplaceAppend(l1, " ", ' ', "_");
    ReplaceAbsent(l1, ' ', "_");
    ReplaceAbsent(l2, ' ', "_");
    assert Replace(l1 + " " + l2, ' ', "_") == l1 + "_" + l2;
    UpperAppend(l1 + "_", l2);
    UpperAppend(l1, "_");
  }

  lemma LettersLowerHaveNoSpace(w: string)
    requires IsLetters(w)
    ensures ' ' !in Lower(w)
  {
    var l := Lower(w);
    assert forall i :: 0 <= i < |l| ==> l[i] != ' ';
  }

  /**
   * A name of two words of letters with one space between them: the name is
   * both words in lower case with the space kept, and the code both words in
   * upper case joined by `_`.
   */
  lemma TwoWordNormalisation(w1: string, w2: string)
    requires w1 != [] && w2 != [] && IsLetters(w1) && IsLetters(w2)
    ensures NormalName(w1 + " " + w2) == Lower(w1) + " " + Lower(w2)
    ensures RequestCode(w1 + " " + w2) == Upper(w1) + "_" + Upper(w2)
  {
    TwoWordName(w1, w2);
    LettersLowerHaveNoSpace(w1);
    LettersLowerHaveNoSpace(w2);
    TwoWordCode(Lower(w1), Lower(w2));
    UpperOfLower(w1);
    UpperOfLower(w2);
  }

  // The request of the permission-creation test and what it is stored as.
  // "Permission" is written as "Permi" + "ssion" because the verifier
  // cannot evaluate the case mapping of the whole ten-letter literal within
  // its resource limit; each piece evaluates cheaply.
  const TestWord: string := "Test"
  const PermissionWord: string := "Permi" + "ssion"
  const ExampleRequest: string := TestWord + " " + PermissionWord
  const ExampleName: string := "test" + " " + ("permi" + "ssion")
  const ExampleCode: string := "TEST" + "_" + ("PERMI" + "SSION")

  lemma LettersAppend(a: string, b: string)
    requires IsLetters(a) && IsLetters(b)
    ensures IsLetters(a + b)
  {
    assert forall i :: |a| <= i < |a + b| ==> (a + b)[i] == b[i - |a|];
  }

  lemma TestWordCases()
    ensures IsLetters(TestWord) && Lower(TestWord) == "test" && Upper(TestWord) == "TEST"
  {
  }

  lemma PermiCases()
    ensures IsLetters("Permi") && Lower("Permi") == "permi" && Upper("Permi") == "PERMI"
  {
  }

  lemma SsionCases()
    ensures IsLetters("ssion") && Lower("ssion") == "ssion" && Upper("ssion") == "SSION"
  {
  }

  /** "Test Permission" is stored as name "test permission" with code "TEST_PERMISSION". */
  lemma ExampleNormalisation()
    ensures NormalName(ExampleRequest) == ExampleName
    ensures RequestCode(ExampleRequest) == ExampleCode
  {
    TestWordCases();
    PermiCases();
    SsionCases();
    LettersAppend("Permi", "ssion");
    LowerAppend("Permi", "ssion");
    UpperAppend("Permi", "ssion");
    TwoWordNormalisation(TestWord, PermissionWord);
  }

  /** Some row already carries `code`. */
  predicate CodeTaken(rows: seq<Entry>, code: string)
  {
    exists i :: 0 <= i < |rows| && rows[i].code == code
  }

  /** A table of permissions or of roles. */
  class Table {
    var rows: seq<Entry>

    constructor (rows: seq<Entry>)
      ensures this.rows == rows
    {
      this.rows := rows;
    }

    /** The unique key on `code`. */
    predicate CodesUnique()
      reads this
    {
      forall i, j :: 0 <= i < j < |rows| ==> rows[i].code != rows[j].code
    }

    /**
     * `Model::code_exist`: whether a row has the normalised code. A failing
     * count query is reported as "no such code".
     */
    method CodeExist(code: string, queryFails: bool) returns (exists_: bool)
      ensures exists_ <==> !queryFails && CodeTaken(rows, CodeOf(code))
    {
      if queryFails {
        return false;
      }
      var normal := CodeOf(code);
      var i := 0;
      while i < |rows|
        invariant 0 <= i <= |rows|
        invariant forall k :: 0 <= k < i ==> rows[k].code != normal
      {
        if rows[i].code == normal {
          return true;
        }
        i := i + 1;
      }
      return false;
    }

    /** `ActiveModel::insert`: refused by the unique key, or by a database failure. */
    method Insert(e: Entry, dbFails: bool) returns (ok: bool)
      modifies this
      ensures ok <==> !dbFails && !CodeTaken(old(rows), e.code)
      ensures rows == if ok then old(rows) + [e] else old(rows)
      ensures old(CodesUnique()) ==> CodesUnique()
    {
      if dbFails || CodeTaken(rows, e.code) {
        return false;
      }
      rows := rows + [e];
      return true;
    }

    /**
     * The `store` service of permissions and of roles. A role request's
     * permission list is not used by it, so only the name is passed.
     */
    method Store(requestName: string, requestValid: bool, freshId: Uuid, countFails: bool, insertFails: bool)
      returns (r: Result<Entry, StoreError>)
      modifies this
      ensures var code := RequestCode(requestName);
              && (!requestValid ==> r == Err(InvalidRequest))
              && (requestValid && !countFails && CodeTaken(old(rows), code) ==> r == Err(NameAlreadyExist))
              && (r.Ok? <==> requestValid && !CodeTaken(old(rows), code) && !insertFails)
              && (r.Ok? ==> r.value == Entry(freshId, code, NormalName(requestName)))
              && (requestValid && (countFails || !CodeTaken(old(rows), code)) && (CodeTaken(old(rows), code) || insertFails)
                  ==> r == Err(StoreFailed))
      ensures rows == if r.Ok? then old(rows) + [r.value] else old(rows)
      ensures old(CodesUnique()) ==> CodesUnique()
    {
      if !requestValid {
        return Err(InvalidRequest);
      }
      var name := NormalName(requestName);
      var code := CodeOf(name);
      var exists_ := CodeExist(code, countFails);
      CodeIdempotent(name);
      if exists_ {
        return Err(NameAlreadyExist);
      }
      var entry := Entry(freshId, code, name);
      var ok := Insert(entry, insertFails);
      if !ok {
        return Err(StoreFailed);
      }
      return Ok(entry);
    }
  }
}
