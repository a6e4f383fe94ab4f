/** Which drafts may go out on their own, and which need a person. */
module MessageClassifier {
  import opened Basics
  import opened MessageRendering

  datatype TemplateStatus = Draft | Approved | Retired

  datatype Template = Template(
    id: nat, body: string, allowed: seq<string>, status: TemplateStatus,
    channel: string, locale: string, relationship: string, attachmentsAllowed: bool)

  datatype Input = Input(
    relationship: string, channel: string, locale: string, templateKey: Option<string>, templateVersion: Option<string>,
    variables: Variables, freeform: Option<string>, hasAttachments: bool)

  datatype Reason =
    | FreeForm | TemplateNotFound | NotApproved | WrongChannel | WrongLocale | WrongRelationship | AttachmentsNotAllowed
    | MissingValues(keys: seq<string>) | UnknownVariables(keys: seq<string>) | NegativeImplication(key: string)

  datatype Classification = Protected | Routine

  datatype Outcome = Outcome(classification: Classification, reasons: seq<Reason>, content: string,
      templateId: Option<nat>)

  // ---------------------------------------------------------------------------------------------
  // Negative implication

  const KEYWORDS: seq<string> := [
    "denied", "denial", "reject", "ineligible", "ineligibility", "adverse", "not approved", "unable to approve",
    "disqualif", "cannot proceed", "terminated", "cancel"]

  function LowerChar(c: char): char { if 'A' <= c <= 'Z' then (c as int + 32) as char else c }

  function Lower(s: string): string { seq(|s|, i requires 0 <= i < |s| => LowerChar(s[i])) }

  predicate StartsAt(text: string, i: nat, part: string) { i + |part| <= |text| && text[i..i + |part|] == part }

  predicate Includes(text: string, part: string) { exists i :: 0 <= i <= |text| && StartsAt(text, i, part) }

  predicate Negative(value: string, keywords: seq<string>) {
    exists k :: 0 <= k < |keywords| && Includes(Lower(value), keywords[k])
  }

  /** The same letter, whether capital or small. */
  predicate SameLetter(a: char, b: char) {
    || a == b
    || ('A' <= a <= 'Z' && b as int == a as int + 32)
    || ('A' <= b <= 'Z' && a as int == b as int + 32)
  }

  /** The word stands at place `i`, in whatever capitalization. */
  predicate StandsAt(text: string, i: nat, word: string) {
    i + |word| <= |text| && forall j :: 0 <= j < |word| ==> SameLetter(text[i + j], word[j])
  }

  lemma {:induction false} KeywordsAreSmall(k: nat, j: nat)
    requires k < |KEYWORDS| && j < |KEYWORDS[k]|
    ensures !('A' <= KEYWORDS[k][j] <= 'Z')
  {
  }

  lemma {:induction false} WordIsIncluded(text: string, i: nat, word: string)
    requires i + |word| <= |text| && forall j :: 0 <= j < |word| ==> !('A' <= word[j] <= 'Z')
    ensures StartsAt(Lower(text), i, word) <==> StandsAt(text, i, word)
  {
    var found := Lower(text)[i..i + |word|];
    assert forall j :: 0 <= j < |word| ==> found[j] == LowerChar(text[i + j]);
    if StandsAt(text, i, word) { assert found == word; }
    if found == word { assert forall j :: 0 <= j < |word| ==> word[j] == LowerChar(text[i + j]); }
  }

  /** A value is flagged exactly when one of the keywords stands in it somewhere, in whatever capitalization. */
  lemma {:induction false} FlagIgnoresCase(value: string)
    ensures Negative(value, KEYWORDS) <==> exists k, i: nat :: 0 <= k < |KEYWORDS| && StandsAt(value, i, KEYWORDS[k])
  {
    forall k, i: nat | 0 <= k < |KEYWORDS|
      ensures StartsAt(Lower(value), i, KEYWORDS[k]) <==> StandsAt(value, i, KEYWORDS[k])
    {
      forall j | 0 <= j < |KEYWORDS[k]| ensures !('A' <= KEYWORDS[k][j] <= 'Z') { KeywordsAreSmall(k, j); }
      if i + |KEYWORDS[k]| <= |value| { WordIsIncluded(value, i, KEYWORDS[k]); }
    }
    if Negative(value, KEYWORDS) {
      var k :| 0 <= k < |KEYWORDS| && Includes(Lower(value), KEYWORDS[k]);
      var i :| 0 <= i <= |value| && StartsAt(Lower(value), i, KEYWORDS[k]);
      assert StandsAt(value, i, KEYWORDS[k]);
    }
    if k, i: nat :| 0 <= k < |KEYWORDS| && StandsAt(value, i, KEYWORDS[k]) {
      assert StartsAt(Lower(value), i, KEYWORDS[k]) && Includes(Lower(value), KEYWORDS[k]);
    }
  }

  predicate Flagged(vars: Variables, i: nat, keywords: seq<string>)
    requires i < |vars.keys|
  {
    Negative(vars.values[vars.keys[i]], keywords)
  }

  /** The first variable with a flagged value, in enumeration order. */
  predicate IsFirstFlagged(vars: Variables, keywords: seq<string>, r: Option<string>) {
    if r.None? then forall i :: 0 <= i < |vars.keys| ==> !Flagged(vars, i, keywords)
    else exists i :: 0 <= i < |vars.keys| && vars.keys[i] == r.value && IsFirst(vars, i, keywords)
  }

  predicate IsFirst(vars: Variables, i: nat, keywords: seq<string>)
    requires i < |vars.keys|
  {
    Flagged(vars, i, keywords) && forall j :: 0 <= j < i ==> !Flagged(vars, j, keywords)
  }

  function FirstFlagged(vars: Variables, keywords: seq<string>, from: nat): (r: Option<string>)
    requires from <= |vars.keys| && forall j :: 0 <= j < from ==> !Flagged(vars, j, keywords)
    ensures IsFirstFlagged(vars, keywords, r)
    decreases |vars.keys| - from
  {
    if from == |vars.keys| then None
    else if Flagged(vars, from, keywords) then Some(vars.keys[from])
    else FirstFlagged(vars, keywords, from + 1)
  }

  method FindNegativeImplication(vars: Variables, keywords: seq<string>) returns (r: Option<string>)
    ensures r == FirstFlagged(vars, keywords, 0)
  {
    for i := 0 to |vars.keys|
      invariant forall j :: 0 <= j < i ==> !Flagged(vars, j, keywords)
      invariant FirstFlagged(vars, keywords, i) == FirstFlagged(vars, keywords, 0)
    {
      if Flagged(vars, i, keywords) { return Some(vars.keys[i]); }
    }
    return None;
  }

  // ---------------------------------------------------------------------------------------------
  // Classification

  function Note(reasons: seq<Reason>, c: bool, r: Reason): seq<Reason> { if c then reasons + [r] else reasons }

  function Mismatches(input: Input, t: Template): seq<Reason> {
    var status := Note([], t.status != Approved, NotApproved);
    var channel := Note(status, t.channel != input.channel, WrongChannel);
    var locale := Note(channel, t.locale != input.locale, WrongLocale);
    var relationship := Note(locale, t.relationship != input.relationship, WrongRelationship);
    Note(relationship, input.hasAttachments && !t.attachmentsAllowed, AttachmentsNotAllowed)
  }

  /** A flagged variable with an empty name counts as no finding. */
  function Reasons(input: Input, t: Template): seq<Reason> {
    var missing, unknown := Lacks(t.body, Reads(input.variables)), Unknown(input.variables.keys, t.allowed);
    var found := FirstFlagged(input.variables, KEYWORDS, 0);
    var values := Note(Mismatches(input, t), missing != [], MissingValues(missing));
    var names := Note(values, unknown != [], UnknownVariables(unknown));
    if found.Some? && found.value != "" then names + [NegativeImplication(found.value)] else names
  }

  predicate Named(s: Option<string>) { s.Some? && s.value != "" }

  /** Nothing is returned when the draft names neither text nor template: the classifier throws. */
  function Classified(input: Input, template: Option<Template>): Option<Outcome> {
    if input.freeform.Some? then Some(Outcome(Protected, [FreeForm], input.freeform.value, None))
    else if !Named(input.templateKey) || !Named(input.templateVersion) then None
    else if template.None? then Some(Outcome(Protected, [TemplateNotFound], "", None))
    else
      var reasons := Reasons(input, template.value);
      Some(Outcome(if reasons == [] then Routine else Protected, reasons,
          Fill(template.value.body, Reads(input.variables)), Some(template.value.id)))
  }

  method Classify(input: Input, template: Option<Template>) returns (r: Option<Outcome>)
    ensures r == Classified(input, template)
  {
    if input.freeform.Some? { return Some(Outcome(Protected, [FreeForm], input.freeform.value, None)); }
    if !Named(input.templateKey) || !Named(input.templateVersion) { return None; }
    if template.None? { return Some(Outcome(Protected, [TemplateNotFound], "", None)); }
    var t := template.value;
    var content, missing, unknown := RenderTemplate(t.body, t.allowed, input.variables);
    var reasons := FindMismatches(input, t);
    if |missing| > 0 { reasons := reasons + [MissingValues(missing)]; }
    if |unknown| > 0 { reasons := reasons + [UnknownVariables(unknown)]; }
    var flagged := FindNegativeImplication(input.variables, KEYWORDS);
    if flagged.Some? && flagged.value != "" { reasons := reasons + [NegativeImplication(flagged.value)]; }
    return Some(Outcome(if |reasons| == 0 then Routine else Protected, reasons, content, Some(t.id)));
  }

  method FindMismatches(input: Input, t: Template) returns (reasons: seq<Reason>)
    ensures reasons == Mismatches(input, t)
  {
    reasons := [];
    if t.status != Approved { reasons := reasons + [NotApproved]; }
    if t.channel != input.channel { reasons := reasons + [WrongChannel]; }
    if t.locale != input.locale { reasons := reasons + [WrongLocale]; }
    if t.relationship != input.relationship { reasons := reasons + [WrongRelationship]; }
    if input.hasAttachments && !t.attachmentsAllowed { reasons := reasons + [AttachmentsNotAllowed]; }
  }

  // ---------------------------------------------------------------------------------------------
  // What ROUTINE promises

  /** The template is approved and meant for this draft. */
  predicate Suits(t: Template, input: Input) {
    && t.status == Approved && t.channel == input.channel && t.locale == input.locale
    && t.relationship == input.relationship
    && (input.hasAttachments ==> t.attachmentsAllowed)
  }

  /** Every placeholder that occurs has a value of its own or an inherited one. */
  ghost predicate AllAnswered(body: string, vars: Variables) {
    forall i: nat, key :: Occurs(body, i, key) ==> key in vars.values || Inherited(key).Some?
  }

  ghost predicate AllAllowed(vars: Variables, allowed: seq<string>) {
    forall key :: key in vars.values ==> key in allowed
  }

  lemma {:induction false} NothingMissing(body: string, vars: Variables)
    ensures Lacks(body, Reads(vars)) == [] <==> AllAnswered(body, vars)
  {
    var lacks := Lacks(body, Reads(vars));
    if lacks != [] {
      LacksAreMissing(body, Reads(vars), lacks[0]);
      assert lacks[0] in lacks;
    } else {
      forall i: nat, key | Occurs(body, i, key) ensures key in vars.values || Inherited(key).Some? {
        LacksAreMissing(body, Reads(vars), key);
      }
    }
  }

  lemma {:induction false} NothingUnknown(vars: Variables, allowed: seq<string>)
    ensures Unknown(vars.keys, allowed) == [] <==> AllAllowed(vars, allowed)
  {
    var unknown := Unknown(vars.keys, allowed);
    if unknown == [] {
      forall key | key in vars.values ensures key in allowed { UnknownMembers(vars.keys, allowed, key); }
    } else {
      UnknownMembers(vars.keys, allowed, unknown[0]);
      assert unknown[0] in unknown;
    }
  }

  /** ROUTINE exactly for a suitable approved template, all of whose placeholders are answered and all of whose
      variables are declared, with no value flagged, or the first flagged one hidden behind an empty name. */
  lemma {:induction false} RoutineIff(input: Input, template: Option<Template>)
    ensures Classified(input, template).Some? && Classified(input, template).value.classification.Routine? <==>
      && input.freeform.None? && Named(input.templateKey) && Named(input.templateVersion) && template.Some?
      && Suits(template.value, input)
      && AllAnswered(template.value.body, input.variables) && AllAllowed(input.variables, template.value.allowed)
      && (var found := FirstFlagged(input.variables, KEYWORDS, 0); found.None? || found.value == "")
  {
    if template.Some? {
      NothingMissing(template.value.body, input.variables);
      NothingUnknown(input.variables, template.value.allowed);
    }
  }

  /** This is wrong with the draft. */
  ghost predicate Wrong(input: Input, t: Template, r: Reason) {
    match r
    case NotApproved => t.status != Approved
    case WrongChannel => t.channel != input.channel
    case WrongLocale => t.locale != input.locale
    case WrongRelationship => t.relationship != input.relationship
    case AttachmentsNotAllowed => input.hasAttachments && !t.attachmentsAllowed
    case MissingValues(keys) => keys != [] && keys == Lacks(t.body, Reads(input.variables))
    case UnknownVariables(keys) => keys != [] && keys == Unknown(input.variables.keys, t.allowed)
    case NegativeImplication(key) => key != "" && FirstFlagged(input.variables, KEYWORDS, 0) == Some(key)
    case _ => false
  }

  lemma {:induction false} Noted(reasons: seq<Reason>, c: bool, r: Reason, x: Reason)
    ensures x in Note(reasons, c, r) <==> x in reasons || (c && x == r)
  {
  }

  lemma {:induction false} MismatchesAreExact(input: Input, t: Template, x: Reason)
    ensures x in Mismatches(input, t) <==>
      Wrong(input, t, x) && !x.MissingValues? && !x.UnknownVariables? && !x.NegativeImplication?
  {
    var status := Note([], t.status != Approved, NotApproved);
    var channel := Note(status, t.channel != input.channel, WrongChannel);
    var locale := Note(channel, t.locale != input.locale, WrongLocale);
    var relationship := Note(locale, t.relationship != input.relationship, WrongRelationship);
    Noted([], t.status != Approved, NotApproved, x);
    Noted(status, t.channel != input.channel, WrongChannel, x);
    Noted(channel, t.locale != input.locale, WrongLocale, x);
    Noted(locale, t.relationship != input.relationship, WrongRelationship, x);
    Noted(relationship, input.hasAttachments && !t.attachmentsAllowed, AttachmentsNotAllowed, x);
  }

  /** A draft from a template is given exactly the reasons for what is wrong with it. */
  lemma {:induction false} ReasonsAreExact(input: Input, t: Template, x: Reason)
    requires input.freeform.None? && Named(input.templateKey) && Named(input.templateVersion)
    ensures Classified(input, Some(t)).Some?
    ensures x in Classified(input, Some(t)).value.reasons <==> Wrong(input, t, x)
  {
    var missing, unknown := Lacks(t.body, Reads(input.variables)), Unknown(input.variables.keys, t.allowed);
    var values := Note(Mismatches(input, t), missing != [], MissingValues(missing));
    MismatchesAreExact(input, t, x);
    Noted(Mismatches(input, t), missing != [], MissingValues(missing), x);
    Noted(values, unknown != [], UnknownVariables(unknown), x);
  }

  /** Every placeholder is filled from a supplied and declared variable. */
  ghost predicate FullySupplied(body: string, vars: Variables, allowed: seq<string>) {
    forall i: nat, key :: Occurs(body, i, key) ==> key in vars.values && key in allowed
  }

  /** No placeholder bears the name of an inherited member without being supplied. */
  ghost predicate NoBorrowedNames(body: string, vars: Variables) {
    forall i: nat, key :: Occurs(body, i, key) && Inherited(key).Some? ==> key in vars.values
  }

  /** A ROUTINE draft has all its placeholders within the supplied variables and those within the declared ones exactly
      when no placeholder borrows an inherited name. */
  lemma {:induction false} RoutineIsFullySupplied(input: Input, t: Template)
    requires Classified(input, Some(t)).Some? && Classified(input, Some(t)).value.classification.Routine?
    ensures FullySupplied(t.body, input.variables, t.allowed) <==> NoBorrowedNames(t.body, input.variables)
    ensures AllAllowed(input.variables, t.allowed)
  {
    RoutineIff(input, Some(t));
  }

  /** Then every occurrence is replaced by the supplied value. */
  lemma {:induction false} RoutineContent(input: Input, t: Template, i: nat, key: string)
    requires Classified(input, Some(t)).Some? && Classified(input, Some(t)).value.classification.Routine?
    requires NoBorrowedNames(t.body, input.variables) && Occurs(t.body, i, key)
    ensures key in input.variables.values && key in t.allowed
    ensures
      var look := Reads(input.variables);
      Classified(input, Some(t)).value.content
      == Fill(t.body[..i], look) + input.variables.values[key] + Fill(t.body[i + |key| + 4..], look)
  {
    RoutineIsFullySupplied(input, t);
    EveryPlaceholderIsFilled(t.body, Reads(input.variables), i, key);
  }

  /** A ROUTINE draft carries no flagged value exactly when a variable with the empty name carries none. */
  lemma {:induction false} RoutineIsUnflagged(input: Input, t: Template)
    requires Classified(input, Some(t)).Some? && Classified(input, Some(t)).value.classification.Routine?
    ensures (forall i :: 0 <= i < |input.variables.keys| ==> !Flagged(input.variables, i, KEYWORDS))
       <==> ("" in input.variables.values ==> !Negative(input.variables.values[""], KEYWORDS))
  {
    RoutineIff(input, Some(t));
    var vars := input.variables;
    if "" in vars.values {
      var i :| 0 <= i < |vars.keys| && vars.keys[i] == "";
      assert Flagged(vars, i, KEYWORDS) <==> Negative(vars.values[""], KEYWORDS);
    }
  }

  /** With no empty name among the declared ones, as the seeded templates have it, a ROUTINE draft carries no flagged
      value at all. */
  lemma {:induction false} NamedVariablesAreChecked(input: Input, t: Template)
    requires Classified(input, Some(t)).Some? && Classified(input, Some(t)).value.classification.Routine?
    requires "" !in t.allowed
    ensures forall i :: 0 <= i < |input.variables.keys| ==> !Flagged(input.variables, i, KEYWORDS)
  {
    RoutineIff(input, Some(t));
    RoutineIsUnflagged(input, t);
  }

  /** A template that declares the empty name lets flagged text pass as ROUTINE. */
  lemma {:induction false} EmptyNameHidesFlag() returns (input: Input, t: Template)
    ensures Classified(input, Some(t)).Some? && Classified(input, Some(t)).value.classification.Routine?
    ensures exists i :: 0 <= i < |input.variables.keys| && Flagged(input.variables, i, KEYWORDS)
  {
    var vars: Variables := Record([""], map["" := "denied"]);
    t := Template(0, "", [""], Approved, "c", "l", "r", false);
    input := Input("r", "c", "l", Some("k"), Some("v"), vars, None, false);
    DeniedIsFlagged(vars);
    RoutineIff(input, Some(t));
  }

  lemma {:induction false} DeniedIsFlagged(vars: Variables)
    requires vars == Record([""], map["" := "denied"])
    ensures Flagged(vars, 0, KEYWORDS) && FirstFlagged(vars, KEYWORDS, 0) == Some("")
  {
    assert Lower("denied") == "denied" == KEYWORDS[0];
    assert StartsAt("denied", 0, "denied") by { assert "denied"[0..6] == "denied"; }
    assert Includes(Lower("denied"), KEYWORDS[0]);
  }

  lemma {:induction false} SolePlaceholder(key: string, i: nat, other: string)
    requires Word(key)
    ensures Occurs("{{" + key + "}}", 0, key) && (Occurs("{{" + key + "}}", i, other) ==> other == key)
  {
    var body := "{{" + key + "}}";
    assert body[2..2 + |key|] == key;
    KeyAtIsExact(body, 0, key);
    KeyAtIsExact(body, 0, other);
    if Occurs(body, i, other) && i > 0 { NoOverlap(body, 0, key, i, other); }
  }

  /** A template may ask for an inherited name, such as `valueOf`: the draft is ROUTINE without supplying anything. */
  lemma {:induction false} BorrowedNameIsRoutine(key: string) returns (input: Input, t: Template)
    requires Word(key) && Inherited(key).Some?
    ensures Classified(input, Some(t)).Some? && Classified(input, Some(t)).value.classification.Routine?
    ensures !FullySupplied(t.body, input.variables, t.allowed)
  {
    var vars: Variables := Record([], map[]);
    t := Template(0, "{{" + key + "}}", [], Approved, "c", "l", "r", false);
    input := Input("r", "c", "l", Some("k"), Some("v"), vars, None, false);
    SolePlaceholder(key, 0, key);
    forall i: nat, other | Occurs(t.body, i, other) ensures Inherited(other).Some? { SolePlaceholder(key, i, other); }
    RoutineIff(input, Some(t));
  }
}
