/**
 * The validator chain of a form field. A validator is an object of some
 * class; what this model needs of it is its class name (what `get_class`
 * reports), its `getError` answer and its `validatorAttributes` text. The
 * validator classes themselves are not part of this model: `getError` is an
 * arbitrary function of the posted values, the field key and the environment.
 */
module Validators {
  import opened Php

  /** All posted form values, by input name. */
  type Values = map<string, Scalar>

  /** What an instance of a validator class does. */
  datatype Behaviour = Behaviour(
    getError: (Values, string, Scalar) -> Scalar,  // a truthy result is an error message
    attributes: string)                            // `validatorAttributes()`, for client-side checks

  datatype Validator = Validator(className: string, behaviour: Behaviour)

  /**
   * The classes PHP can instantiate: `spelling` maps a requested short name
   * to the spelling its class declares (PHP resolves class names without
   * regard to case and `get_class` reports the declared spelling); `make`
   * is what a fresh instance of that class does.
   */
  datatype ClassTable = ClassTable(spelling: string -> string, make: string -> Behaviour)

  /** ASCII lower case, as PHP folds class names. */
  function LowerAscii(c: char): char {
    if 'A' <= c <= 'Z' then (c as int + 32) as char else c
  }

  /** Equal once ASCII letters are folded to lower case. */
  predicate SameIgnoringCase(a: string, b: string) {
    |a| == |b| && forall i :: 0 <= i < |a| ==> LowerAscii(a[i]) == LowerAscii(b[i])
  }

  /**
   * What PHP's class lookup can do: the spelling found for a name differs
   * from it only in ASCII case, names equal up to case find the same class,
   * and the `Required` validator class is declared as `Required`.
   */
  ghost predicate WellFormed(t: ClassTable) {
    (forall n :: SameIgnoringCase(t.spelling(n), n)) &&
    (forall a, b :: SameIgnoringCase(a, b) ==> t.spelling(a) == t.spelling(b)) &&
    t.spelling("Required") == "Required"
  }

  /** Where `addValidator` looks a name up. */
  const BuiltinNamespace: string := "Ip\\Form\\Validator\\"
  /** Where `removeValidator` looks a name up. */
  const RemovalNamespace: string := "Modules\\developer\\form\\Validator\\"
  /** The class whose presence makes a field required. */
  const RequiredClass: string := "Ip\\Form\\Validator\\Required"

  predicate IsAsciiAlnum(c: char) {
    'a' <= c <= 'z' || 'A' <= c <= 'Z' || '0' <= c <= '9'
  }

  predicate AllAsciiAlnum(s: string) {
    forall i :: 0 <= i < |s| ==> IsAsciiAlnum(s[i])
  }

  /**
   * `preg_match('/^[a-z0-9]+$/i', $name)`: one or more ASCII letters or
   * digits; PCRE's `$` also matches before a final newline.
   */
  predicate IsValidatorName(s: string) {
    (|s| >= 1 && AllAsciiAlnum(s)) ||
    (|s| >= 2 && s[|s| - 1] == '\n' && AllAsciiAlnum(s[..|s| - 1]))
  }

  /** An accepted name cannot leave the validator namespace or inject code. */
  lemma AcceptedNameIsPlain(s: string)
    requires IsValidatorName(s)
    ensures '\\' !in s && ';' !in s && ' ' !in s && '(' !in s
    ensures forall i :: 0 <= i < |s| - 1 ==> IsAsciiAlnum(s[i])
  {
    assert s[0] != '\\' && IsAsciiAlnum(s[0]);
    if AllAsciiAlnum(s) {
    } else {
      assert s == s[..|s| - 1] + ['\n'];
      assert forall i :: 0 <= i < |s| - 1 ==> s[i] == s[..|s| - 1][i];
    }
  }

  /** Names the pattern accepts and rejects. */
  lemma ValidatorNameExamples()
    ensures IsValidatorName("Required") && IsValidatorName("Email")
    ensures !IsValidatorName("Required; DROP") && !IsValidatorName("")
    ensures IsValidatorName("Required\n") && !IsValidatorName("Required\n\n")
  {
    assert !IsAsciiAlnum("Required; DROP"[8]);
    assert !IsAsciiAlnum("Required\n\n"[8]);
    assert "Required\n"[..8] == "Required";
  }

  /** The instance `new \Ip\Form\Validator\<name>` gives. */
  function Builtin(name: string, table: ClassTable): Validator {
    var cls := BuiltinNamespace + table.spelling(name);
    Validator(cls, table.make(cls))
  }

  /** The instance built for a name is of a class in `Ip\Form\Validator\` spelled like the name up to case. */
  lemma BuiltinClassName(name: string, table: ClassTable)
    requires WellFormed(table)
    ensures SameIgnoringCase(Builtin(name, table).className, BuiltinNamespace + name)
  {
    var sp := table.spelling(name);
    assert SameIgnoringCase(sp, name);
    var cls := Builtin(name, table).className;
    forall i | 0 <= i < |cls|
      ensures LowerAscii(cls[i]) == LowerAscii((BuiltinNamespace + name)[i])
    {
      if i >= |BuiltinNamespace| {
        assert cls[i] == sp[i - |BuiltinNamespace|];
        assert (BuiltinNamespace + name)[i] == name[i - |BuiltinNamespace|];
      }
    }
  }

  /** The chain the constructor's `validators` option attaches, one instance per name. */
  function BuiltinChain(names: seq<string>, table: ClassTable): seq<Validator> {
    seq(|names|, i requires 0 <= i < |names| => Builtin(names[i], table))
  }

  /** Each further name in the option appends its instance, as one more `addValidator` does. */
  lemma BuiltinChainSnoc(names: seq<string>, name: string, table: ClassTable)
    ensures BuiltinChain(names + [name], table) == BuiltinChain(names, table) + [Builtin(name, table)]
  {
    var l := BuiltinChain(names + [name], table);
    var r := BuiltinChain(names, table) + [Builtin(name, table)];
    assert |l| == |r|;
    forall i | 0 <= i < |l|
      ensures l[i] == r[i]
    {
      if i < |names| {
        assert (names + [name])[i] == names[i];
      }
    }
  }

  /** An instance made by name is of the Required class iff the name is `Required` up to case. */
  lemma BuiltinIsRequired(name: string, table: ClassTable)
    requires WellFormed(table)
    ensures Builtin(name, table).className == RequiredClass <==> SameIgnoringCase(name, "Required")
  {
    var sp := table.spelling(name);
    var cls := Builtin(name, table).className;
    assert RequiredClass == BuiltinNamespace + "Required";
    assert SameIgnoringCase(sp, name);
    if cls == RequiredClass {
      assert cls[|BuiltinNamespace|..] == sp;
      assert RequiredClass[|BuiltinNamespace|..] == "Required";
      assert sp == "Required";
      forall i | 0 <= i < |name|
        ensures LowerAscii(name[i]) == LowerAscii("Required"[i])
      {
        assert LowerAscii(sp[i]) == LowerAscii(name[i]);
      }
    }
    if SameIgnoringCase(name, "Required") {
      assert table.spelling(name) == table.spelling("Required");
    }
  }

  /** A field built from `names` is required iff one of the names is `Required` up to case. */
  lemma BuiltinChainRequired(names: seq<string>, table: ClassTable)
    requires WellFormed(table)
    ensures (exists i :: 0 <= i < |names| && BuiltinChain(names, table)[i].className == RequiredClass) <==>
            (exists i :: 0 <= i < |names| && SameIgnoringCase(names[i], "Required"))
  {
    forall i | 0 <= i < |names|
      ensures BuiltinChain(names, table)[i].className == RequiredClass <==> SameIgnoringCase(names[i], "Required")
    {
      BuiltinIsRequired(names[i], table);
    }
  }

  /** A field whose only validator is `Email` is not required. */
  lemma EmailIsNotRequired(table: ClassTable)
    requires WellFormed(table)
    ensures Builtin("Email", table).className != RequiredClass
  {
    BuiltinIsRequired("Email", table);
  }

  function ErrorOf(v: Validator, values: Values, key: string, env: Scalar): Scalar {
    v.behaviour.getError(values, key, env)
  }

  /** The answer of `validate`: the first truthy error in chain order, else `false`. */
  function FirstError(vs: seq<Validator>, values: Values, key: string, env: Scalar): Scalar {
    if vs == [] then Bool(false)
    else if Truthy(ErrorOf(vs[0], values, key, env)) then ErrorOf(vs[0], values, key, env)
    else FirstError(vs[1..], values, key, env)
  }

  /**
   * The validation result is falsy iff no validator reports a truthy error;
   * otherwise it is the error of the first validator that does.
   */
  lemma {:induction false} FirstErrorIsFirstFailure(vs: seq<Validator>, values: Values, key: string, env: Scalar)
    ensures !Truthy(FirstError(vs, values, key, env)) <==>
              forall i :: 0 <= i < |vs| ==> !Truthy(ErrorOf(vs[i], values, key, env))
    ensures !Truthy(FirstError(vs, values, key, env)) ==> FirstError(vs, values, key, env) == Bool(false)
    ensures Truthy(FirstError(vs, values, key, env)) ==>
              exists i :: 0 <= i < |vs| && FirstError(vs, values, key, env) == ErrorOf(vs[i], values, key, env) &&
                forall j :: 0 <= j < i ==> !Truthy(ErrorOf(vs[j], values, key, env))
  {
    if vs != [] && !Truthy(ErrorOf(vs[0], values, key, env)) {
      FirstErrorIsFirstFailure(vs[1..], values, key, env);
      var r := FirstError(vs, values, key, env);
      if Truthy(r) {
        var i :| 0 <= i < |vs| - 1 && r == ErrorOf(vs[1..][i], values, key, env) &&
          forall j :: 0 <= j < i ==> !Truthy(ErrorOf(vs[1..][j], values, key, env));
        assert forall j :: 1 <= j < i + 1 ==> vs[j] == vs[1..][j - 1];
      } else {
        assert forall i :: 1 <= i < |vs| ==> vs[i] == vs[1..][i - 1];
      }
    }
  }

  /**
   * First failure wins: once a prefix of the chain reports an error, the
   * validators after it are never consulted, whatever they would answer.
   */
  lemma {:induction false} FirstErrorConcat(p: seq<Validator>, q: seq<Validator>, values: Values, key: string, env: Scalar)
    ensures FirstError(p + q, values, key, env) ==
      if Truthy(FirstError(p, values, key, env)) then FirstError(p, values, key, env)
      else FirstError(q, values, key, env)
  {
    if p == [] {
      assert p + q == q;
    } else {
      assert (p + q)[0] == p[0] && (p + q)[1..] == p[1..] + q;
      FirstErrorConcat(p[1..], q, values, key, env);
    }
  }

  /** `removeValidator`'s filter: the validators whose class is not `cls`, in order. */
  function WithoutInstancesOf(vs: seq<Validator>, cls: string): (r: seq<Validator>)
    ensures |r| <= |vs|
    ensures forall i :: 0 <= i < |r| ==> r[i].className != cls
  {
    if vs == [] then []
    else if vs[0].className == cls then WithoutInstancesOf(vs[1..], cls)
    else [vs[0]] + WithoutInstancesOf(vs[1..], cls)
  }

  /** Filtering a concatenation filters each part and keeps their order. */
  lemma {:induction false} WithoutInstancesOfConcat(a: seq<Validator>, b: seq<Validator>, cls: string)
    ensures WithoutInstancesOf(a + b, cls) == WithoutInstancesOf(a, cls) + WithoutInstancesOf(b, cls)
  {
    if a == [] {
      assert a + b == b;
    } else {
      assert (a + b)[0] == a[0] && (a + b)[1..] == a[1..] + b;
      WithoutInstancesOfConcat(a[1..], b, cls);
    }
  }

  /** A chain with no instance of `cls` is kept whole. */
  lemma {:induction false} WithoutAbsentInstances(vs: seq<Validator>, cls: string)
    requires forall i :: 0 <= i < |vs| ==> vs[i].className != cls
    ensures WithoutInstancesOf(vs, cls) == vs
  {
    if vs != [] {
      WithoutAbsentInstances(vs[1..], cls);
      assert [vs[0]] + vs[1..] == vs;
    }
  }

  /** Every validator of another class survives the filter. */
  lemma {:induction false} WithoutInstancesOfKeeps(vs: seq<Validator>, cls: string, i: nat)
    requires i < |vs| && vs[i].className != cls
    ensures vs[i] in WithoutInstancesOf(vs, cls)
  {
    if i > 0 {
      WithoutInstancesOfKeeps(vs[1..], cls, i - 1);
    }
  }

  /**
   * `removeValidator` never removes an instance `addValidator` attached:
   * the two resolve names in different namespaces.
   */
  lemma BuiltinsSurviveRemoval(vs: seq<Validator>, name: string, table: ClassTable)
    requires forall i :: 0 <= i < |vs| ==> BuiltinNamespace <= vs[i].className
    ensures WithoutInstancesOf(vs, RemovalNamespace + name) == vs
    ensures WithoutInstancesOf(vs + [Builtin(name, table)], RemovalNamespace + name) == vs + [Builtin(name, table)]
  {
    var target := RemovalNamespace + name;
    assert target[0] == 'M';
    forall i | 0 <= i < |vs|
      ensures vs[i].className != target
    {
      assert vs[i].className[0] == BuiltinNamespace[0] == 'I';
    }
    WithoutAbsentInstances(vs, target);
    var b := Builtin(name, table);
    assert b.className[0] == 'I';
    WithoutInstancesOfConcat(vs, [b], target);
  }

  /** The text one validator contributes to `getValidationAttributesStr`. */
  function Contribution(v: Validator): string {
    if v.behaviour.attributes != "" then " " + v.behaviour.attributes else ""
  }

  /** The non-empty contributions, each after a space, in chain order. */
  function ValidationAttributes(vs: seq<Validator>): string {
    if vs == [] then "" else Contribution(vs[0]) + ValidationAttributes(vs[1..])
  }

  lemma {:induction false} ValidationAttributesConcat(a: seq<Validator>, b: seq<Validator>)
    ensures ValidationAttributes(a + b) == ValidationAttributes(a) + ValidationAttributes(b)
  {
    if a == [] {
      assert a + b == b;
    } else {
      assert (a + b)[0] == a[0] && (a + b)[1..] == a[1..] + b;
      ValidationAttributesConcat(a[1..], b);
    }
  }

  /** The text is empty iff no validator contributes anything. */
  lemma {:induction false} ValidationAttributesEmpty(vs: seq<Validator>)
    ensures ValidationAttributes(vs) == "" <==>
              forall i :: 0 <= i < |vs| ==> vs[i].behaviour.attributes == ""
  {
    if vs != [] {
      ValidationAttributesEmpty(vs[1..]);
      assert forall i :: 1 <= i < |vs| ==> vs[i] == vs[1..][i - 1];
    }
  }
}
