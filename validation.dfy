/**
 * Field validation (internal/srv/validation.go) and the per-entity checks
 * built on it (internal/srv/vocab.go, internal/srv/fixit.go).  A Dafny
 * `string` is a sequence of Unicode scalar values, so `|s|` is the rune count
 * that `utf8.RuneCountInString` returns.
 */
module Validation {
  import opened Wrappers
  import opened Decimal
  import opened Mdl

  // ---------------------------------------------------------------------
  // One field

  /** `strings.ContainsAny(s, chars)` */
  function ContainsAny(s: string, chars: string): (found: bool)
    ensures found <==> exists i :: 0 <= i < |s| && s[i] in chars
  {
    if s == [] then false
    else if s[0] in chars then true
    else
      var rest := ContainsAny(s[1..], chars);
      assert forall i :: 0 <= i < |s| - 1 ==> s[1..][i] == s[i + 1];
      rest
  }

  function TooLongMessage(fieldName: string, maxLength: int): string
  {
    fieldName + " must be shorter than " + IntToString(maxLength) + " characters"
  }

  function InvalidCharsMessage(fieldName: string): string
  {
    fieldName + " contains invalid characters"
  }

  /**
   * `validateFieldContent`: at most `maxLength` runes, and not both a markup
   * character (`<` or `>`) and a quote or slash (`"` or `/`).  Length is
   * checked first.
   */
  function ValidateFieldContent(fieldValue: string, fieldName: string, maxLength: int): (r: Outcome)
    ensures |fieldValue| > maxLength ==> r == Fail(TooLongMessage(fieldName, maxLength))
    ensures |fieldValue| <= maxLength ==>
      (r.Fail? <==> (exists i :: 0 <= i < |fieldValue| && fieldValue[i] in "<>") &&
                    (exists j :: 0 <= j < |fieldValue| && fieldValue[j] in "\"/"))
    ensures |fieldValue| <= maxLength && r.Fail? ==> r.error == InvalidCharsMessage(fieldName)
  {
    if |fieldValue| > maxLength then Fail(TooLongMessage(fieldName, maxLength))
    else if ContainsAny(fieldValue, "<>") && ContainsAny(fieldValue, "\"/") then Fail(InvalidCharsMessage(fieldName))
    else Pass
  }

  /** A markup character alone is let through: the rule needs both classes. */
  lemma ScriptTagWithoutQuoteOrSlashPasses(fieldName: string, maxLength: int)
    requires maxLength >= 12
    ensures ValidateFieldContent("test<script>", fieldName, maxLength) == Pass
  {
    var s := "test<script>";
    assert !ContainsAny(s, "\"/") by {
      forall i | 0 <= i < |s| ensures s[i] !in "\"/" {
      }
    }
  }

  /** The empty value passes every non-negative bound. */
  lemma EmptyPasses(fieldName: string, maxLength: int)
    requires maxLength >= 0
    ensures ValidateFieldContent("", fieldName, maxLength) == Pass
  {
  }

  // ---------------------------------------------------------------------
  // A sequence of checks, first failure wins

  /** The first failing outcome of `checks`, or `Pass` when all pass. */
  function FirstFailure(checks: seq<Outcome>): Outcome
  {
    if checks == [] then Pass
    else if checks[0].Fail? then checks[0]
    else FirstFailure(checks[1..])
  }

  predicate AllPass(checks: seq<Outcome>)
  {
    forall i :: 0 <= i < |checks| ==> checks[i].Pass?
  }

  /** `FirstFailure` passes exactly when every check does, and otherwise reports the earliest failure. */
  lemma {:induction false} FirstFailureLaws(checks: seq<Outcome>)
    ensures FirstFailure(checks).Pass? <==> AllPass(checks)
    ensures FirstFailure(checks).Fail? ==>
      exists i :: 0 <= i < |checks| && checks[i] == FirstFailure(checks) && AllPass(checks[..i])
  {
    if checks != [] && checks[0].Pass? {
      var rest := checks[1..];
      FirstFailureLaws(rest);
      assert forall i :: 0 <= i < |rest| ==> rest[i] == checks[i + 1];
      if FirstFailure(rest).Fail? {
        var i :| 0 <= i < |rest| && rest[i] == FirstFailure(rest) && AllPass(rest[..i]);
        assert checks[..i + 1] == [checks[0]] + rest[..i];
        assert checks[i + 1] == FirstFailure(checks);
      }
    } else if checks != [] {
      assert checks[..0] == [];
    }
  }

  // ---------------------------------------------------------------------
  // Vocab

  const MaxLearningLangLen := 40
  const MaxFirstLangLen := 40
  const MaxAlternativesLen := 255
  const MaxSkillLen := 100
  const MaxInfinitiveLen := 40
  const MaxPosLen := 40
  const MaxHintLen := 255

  const LearningLangRequired := "learning lang field is required"
  const LangCodeMessage := "Language codes must consist of two lowercase letters"

  /** The checks an update runs, in order. */
  function VocabUpdateChecks(v: Vocab): seq<Outcome>
  {
    [ ValidateFieldContent(v.firstLang, "First language", MaxFirstLangLen),
      ValidateFieldContent(v.alternatives, "Alternatives", MaxAlternativesLen),
      ValidateFieldContent(v.skill, "Skill", MaxSkillLen),
      ValidateFieldContent(v.infinitive, "Infinitive", MaxInfinitiveLen),
      ValidateFieldContent(v.pos, "Part of speech", MaxPosLen),
      ValidateFieldContent(v.hint, "Hint", MaxHintLen) ]
  }

  /** `validateVocabUpdate`: the six free-text fields, each with its own bound. */
  function ValidateVocabUpdate(v: Vocab): (r: Outcome)
    ensures r.Pass? <==> forall c :: c in VocabUpdateChecks(v) ==> c.Pass?
    ensures r.Fail? ==> r in VocabUpdateChecks(v)
  {
    var first := ValidateFieldContent(v.firstLang, "First language", MaxFirstLangLen);
    if first.Fail? then first else
    var alternatives := ValidateFieldContent(v.alternatives, "Alternatives", MaxAlternativesLen);
    if alternatives.Fail? then alternatives else
    var skill := ValidateFieldContent(v.skill, "Skill", MaxSkillLen);
    if skill.Fail? then skill else
    var infinitive := ValidateFieldContent(v.infinitive, "Infinitive", MaxInfinitiveLen);
    if infinitive.Fail? then infinitive else
    var pos := ValidateFieldContent(v.pos, "Part of speech", MaxPosLen);
    if pos.Fail? then pos else
    ValidateFieldContent(v.hint, "Hint", MaxHintLen)
  }

  /** A language code as `^[a-z]{2}$` accepts it: exactly two lower-case ASCII letters. */
  predicate IsLangCode(s: string)
  {
    |s| == 2 && 'a' <= s[0] <= 'z' && 'a' <= s[1] <= 'z'
  }

  /** The checks a full validation runs, in order. */
  function VocabChecks(v: Vocab): seq<Outcome>
  {
    [ ValidateFieldContent(v.learningLang, "Learning language", MaxLearningLangLen),
      if |v.learningLang| == 0 then Fail(LearningLangRequired) else Pass,
      ValidateVocabUpdate(v),
      if !IsLangCode(v.knownLangCode) || !IsLangCode(v.learningLangCode) then Fail(LangCodeMessage) else Pass ]
  }

  /**
   * `validateVocab`: the learning-language text, then its presence, then the
   * update checks, then both language codes.
   */
  function ValidateVocab(v: Vocab): (r: Outcome)
    ensures r.Pass? <==> forall c :: c in VocabChecks(v) ==> c.Pass?
    ensures r.Fail? ==> r in VocabChecks(v)
  {
    var learning := ValidateFieldContent(v.learningLang, "Learning language", MaxLearningLangLen);
    if learning.Fail? then learning
    else if |v.learningLang| == 0 then Fail(LearningLangRequired)
    else
      var update := ValidateVocabUpdate(v);
      if update.Fail? then update
      else if !IsLangCode(v.knownLangCode) || !IsLangCode(v.learningLangCode) then Fail(LangCodeMessage)
      else Pass
  }

  /** Update validation runs its six checks in order and reports the first failure. */
  lemma ValidateVocabUpdateInOrder(v: Vocab)
    ensures ValidateVocabUpdate(v) == FirstFailure(VocabUpdateChecks(v))
  {
    var c := VocabUpdateChecks(v);
    assert FirstFailure(c[5..]) == c[5] by { assert c[5..][1..] == []; }
    assert FirstFailure(c[4..]) == if c[4].Fail? then c[4] else FirstFailure(c[5..]) by { assert c[4..][1..] == c[5..]; }
    assert FirstFailure(c[3..]) == if c[3].Fail? then c[3] else FirstFailure(c[4..]) by { assert c[3..][1..] == c[4..]; }
    assert FirstFailure(c[2..]) == if c[2].Fail? then c[2] else FirstFailure(c[3..]) by { assert c[2..][1..] == c[3..]; }
    assert FirstFailure(c[1..]) == if c[1].Fail? then c[1] else FirstFailure(c[2..]) by { assert c[1..][1..] == c[2..]; }
    assert FirstFailure(c) == if c[0].Fail? then c[0] else FirstFailure(c[1..]);
  }

  /** Full validation runs its four stages in order and reports the first failure. */
  lemma ValidateVocabInOrder(v: Vocab)
    ensures ValidateVocab(v) == FirstFailure(VocabChecks(v))
  {
    var c := VocabChecks(v);
    assert FirstFailure(c[3..]) == c[3] by { assert c[3..][1..] == []; }
    assert FirstFailure(c[2..]) == if c[2].Fail? then c[2] else FirstFailure(c[3..]) by { assert c[2..][1..] == c[3..]; }
    assert FirstFailure(c[1..]) == if c[1].Fail? then c[1] else FirstFailure(c[2..]) by { assert c[1..][1..] == c[2..]; }
    assert FirstFailure(c) == if c[0].Fail? then c[0] else FirstFailure(c[1..]);
  }

  /** A vocab that passes full validation passes the update checks, has a learning language and two valid codes. */
  lemma ValidateVocabStronger(v: Vocab)
    requires ValidateVocab(v).Pass?
    ensures ValidateVocabUpdate(v).Pass?
    ensures |v.learningLang| > 0 && IsLangCode(v.knownLangCode) && IsLangCode(v.learningLangCode)
  {
    ValidateVocabInOrder(v);
    FirstFailureLaws(VocabChecks(v));
    assert VocabChecks(v)[1].Pass? && VocabChecks(v)[2].Pass? && VocabChecks(v)[3].Pass?;
  }

  /** Update validation never looks at the learning language or the language codes. */
  lemma ValidateVocabUpdateIgnoresIdentity(v: Vocab, learningLang: string, known: string, learning: string)
    ensures ValidateVocabUpdate(v.(learningLang := learningLang, knownLangCode := known, learningLangCode := learning))
         == ValidateVocabUpdate(v)
  {
  }

  // ---------------------------------------------------------------------
  // Fixit

  const MaxFixitFieldNameLen := 40
  const MaxFixitCommitLen := 2000

  function FixitChecks(f: Fixit): seq<Outcome>
  {
    [ ValidateFieldContent(f.fieldName, "Field Name", MaxFixitFieldNameLen),
      ValidateFieldContent(f.comments, "Commits", MaxFixitCommitLen) ]
  }

  /** `validateFixit`: the field name, then the comments (reported as "Commits"). */
  function ValidateFixit(f: Fixit): (r: Outcome)
    ensures r.Pass? <==> forall c :: c in FixitChecks(f) ==> c.Pass?
    ensures r.Fail? ==> r in FixitChecks(f)
  {
    var fieldName := ValidateFieldContent(f.fieldName, "Field Name", MaxFixitFieldNameLen);
    if fieldName.Fail? then fieldName
    else ValidateFieldContent(f.comments, "Commits", MaxFixitCommitLen)
  }

  /** Fix-it validation checks the field name, then the comments. */
  lemma ValidateFixitInOrder(f: Fixit)
    ensures ValidateFixit(f) == FirstFailure(FixitChecks(f))
  {
    var c := FixitChecks(f);
    assert FirstFailure(c[1..]) == c[1] by { assert c[1..][1..] == []; }
  }

  lemma FortyText()
    ensures IntToString(40) == "40"
  {
    assert NaturalToString(4) == "4";
  }

  lemma TwoThousandText()
    ensures IntToString(2000) == "2000"
  {
    assert NaturalToString(2) == "2";
    assert NaturalToString(20) == "20";
    assert NaturalToString(200) == "200";
  }

  /** The message for an over-long field name. */
  lemma FixitFieldNameTooLong(f: Fixit)
    requires |f.fieldName| > 40
    ensures ValidateFixit(f) == Fail("Field Name must be shorter than 40 characters")
  {
    FortyText();
    var r := ValidateFieldContent(f.fieldName, "Field Name", 40);
    assert r == Fail(TooLongMessage("Field Name", 40));
    assert TooLongMessage("Field Name", 40) == "Field Name must be shorter than 40 characters";
  }

  /** The message for over-long comments, which the source labels "Commits". */
  lemma FixitCommentsTooLong(f: Fixit)
    requires ValidateFieldContent(f.fieldName, "Field Name", 40).Pass? && |f.comments| > 2000
    ensures ValidateFixit(f) == Fail("Commits must be shorter than 2000 characters")
  {
    TwoThousandText();
    var r := ValidateFieldContent(f.comments, "Commits", 2000);
    assert r == Fail(TooLongMessage("Commits", 2000));
    assert TooLongMessage("Commits", 2000) == "Commits must be shorter than 2000 characters";
  }
}
