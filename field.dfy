/**
 * The form field object (`Ip\Form\Field`): presentation metadata, an
 * ordered attribute map, an insertion-ordered class set and an ordered
 * validator chain, all updated in place.
 */
module Form {
  import opened Common
  import opened Php
  import opened Html
  import opened Attributes
  import opened Classes
  import opened Validators

  /** `\Ip\Form\Exception` with code UNKNOWN_VALIDATOR, carrying the rejected name. */
  datatype FormException = UnknownValidator(name: string)

  /**
   * The constructor's options array. An absent key is `Null` (or empty);
   * `css` given as an array is not part of this model.
   */
  datatype Options = Options(
    validators: seq<string>,
    labelText: Scalar,
    note: Scalar,
    hint: Scalar,
    name: Scalar,
    value: Scalar,
    css: Scalar,
    attributes: seq<Entry>)

  /** What `new Field($options)` ends in: the object, or the exception thrown. */
  datatype Construction = Created(field: Field) | Failed(error: FormException)

  /** The `id` the constructor generates from the random integer `n`. */
  function GeneratedId(n: nat): string {
    "field_" + DecimalString(n)
  }

  /** A generated id is `field_` followed by the canonical decimal text of `n`. */
  lemma GeneratedIdShape(n: nat)
    requires n >= 1
    ensures |GeneratedId(n)| > 6 && GeneratedId(n)[..6] == "field_"
    ensures IsDecimal(GeneratedId(n)[6..]) && GeneratedId(n)[6] != '0'
    ensures ParseDecimal(GeneratedId(n)[6..]) == n
  {
    var d := DecimalString(n);
    assert GeneratedId(n)[6..] == d;
    ParseDecimalString(n);
    DecimalStringNoLeadingZero(n);
  }

  class Field {
    var labelText: Scalar
    var note: Scalar
    var hint: Scalar
    var name: Scalar
    var value: Scalar
    var validators: seq<Validator>
    var attributes: seq<Entry>
    var classes: seq<string>

    /** The shape of the PHP arrays: attribute names and classes occur once. */
    ghost predicate Valid()
      reads this
    {
      DistinctKeys(attributes) && NoDup(classes)
    }

    /**
     * The object before the constructor body has run. Only `Create` models
     * `new Field($options)`: this alone leaves a field without an `id`.
     */
    constructor ()
      ensures Valid()
      ensures validators == [] && attributes == [] && classes == []
      ensures labelText == Null && note == Null && hint == Null && name == Null && value == Null
    {
      labelText, note, hint, name, value := Null, Null, Null, Null, Null;
      validators := [];
      attributes := [];
      classes := [];
    }

    /**
     * `__construct($options)`. `randomId` is the value of `rand(1, PHP_INT_MAX)`;
     * `table` stands for the validator classes PHP can load.
     */
    static method Create(options: Options, table: ClassTable, randomId: int) returns (r: Construction)
      requires WellFormed(table)
      requires DistinctKeys(options.attributes)
      requires 1 <= randomId <= PhpIntMax
      ensures r.Failed? <==>
                exists i :: 0 <= i < |options.validators| && !IsValidatorName(options.validators[i])
      ensures r.Failed? ==>
                exists i :: 0 <= i < |options.validators| && r.error == UnknownValidator(options.validators[i]) &&
                  !IsValidatorName(options.validators[i]) &&
                  forall j :: 0 <= j < i ==> IsValidatorName(options.validators[j])
      ensures r.Created? ==> fresh(r.field) && r.field.Valid()
      ensures r.Created? ==> r.field.validators == BuiltinChain(options.validators, table)
      ensures r.Created? ==>
                r.field.labelText == (if Truthy(options.labelText) then options.labelText else Null) &&
                r.field.note == (if Truthy(options.note) then options.note else Null) &&
                r.field.hint == (if Truthy(options.hint) then options.hint else Null) &&
                r.field.name == (if Truthy(options.name) then options.name else Null) &&
                r.field.value == (if Truthy(options.value) then options.value else Null)
      ensures r.Created? ==> r.field.classes == (if Truthy(options.css) then ["0"] else [])
      ensures r.Created? ==> "id" in Keys(r.field.attributes)
      ensures r.Created? ==>
                r.field.attributes ==
                  if "id" in Keys(options.attributes) then options.attributes
                  else options.attributes + [("id", GeneratedId(randomId))]
      ensures r.Created? ==>
                r.field.GetId() == Str(if "id" in Keys(options.attributes) then Lookup(options.attributes, "id").value
                                       else GeneratedId(randomId))
    {
      var f := new Field();
      var names := options.validators;
      var i := 0;
      while i < |names|
        invariant 0 <= i <= |names|
        invariant fresh(f)
        invariant f.validators == BuiltinChain(names[..i], table)
        invariant forall j :: 0 <= j < i ==> IsValidatorName(names[j])
        invariant f.attributes == [] && f.classes == []
        invariant f.labelText == Null && f.note == Null && f.hint == Null && f.name == Null && f.value == Null
      {
        var thrown := f.AddValidator(names[i], table);
        if thrown.Some? {
          return Failed(thrown.value);
        }
        assert names[..i + 1] == names[..i] + [names[i]];
        BuiltinChainSnoc(names[..i], names[i], table);
        i := i + 1;
      }
      assert names[..i] == names;
      f.ApplyOptions(options, randomId);
      if "id" !in Keys(options.attributes) {
        LookupAppended(options.attributes, "id", GeneratedId(randomId));
      }
      return Created(f);
    }

    /** The rest of `__construct($options)`: the options after `validators`, then the `id`. */
    method ApplyOptions(options: Options, randomId: int)
      requires Valid() && DistinctKeys(options.attributes)
      requires 1 <= randomId <= PhpIntMax
      modifies this`labelText, this`note, this`hint, this`name, this`value, this`classes, this`attributes
      ensures Valid()
      ensures labelText == (if Truthy(options.labelText) then options.labelText else old(labelText))
      ensures note == (if Truthy(options.note) then options.note else old(note))
      ensures hint == (if Truthy(options.hint) then options.hint else old(hint))
      ensures name == (if Truthy(options.name) then options.name else old(name))
      ensures value == (if Truthy(options.value) then options.value else old(value))
      ensures classes == (if Truthy(options.css) then ["0"] else [])
      ensures "id" in Keys(attributes)
      ensures attributes == if "id" in Keys(options.attributes) then options.attributes
                            else options.attributes + [("id", GeneratedId(randomId))]
    {
      labelText := if Truthy(options.labelText) then options.labelText else labelText;
      note := if Truthy(options.note) then options.note else note;
      hint := if Truthy(options.hint) then options.hint else hint;
      name := if Truthy(options.name) then options.name else name;
      value := if Truthy(options.value) then options.value else value;
      // A string `css` is stored as the VALUE under key 0; the classes are the keys.
      classes := if Truthy(options.css) then ["0"] else [];
      ApplyAttributes(options.attributes, randomId);
    }

    /** The `attributes` option, then an `id` generated from `randomId` unless one was given. */
    method ApplyAttributes(given: seq<Entry>, randomId: int)
      requires Valid() && DistinctKeys(given)
      requires 1 <= randomId <= PhpIntMax
      modifies this`attributes
      ensures Valid()
      ensures "id" in Keys(attributes)
      ensures attributes == if "id" in Keys(given) then given else given + [("id", GeneratedId(randomId))]
    {
      if given != [] {
        SetAttributes(given);
      } else {
        SetAttributes([]);
      }
      if Lookup(attributes, "id").None? {
        AddAttribute("id", GeneratedId(randomId));
        PutNew(given, "id", GeneratedId(randomId));
        assert Keys(attributes)[|given|] == "id";
      }
    }

    /** `validate($values, $valueKey, $environment)`: the chain's first truthy error, else `false`. */
    method Validate(values: Values, key: string, env: Scalar) returns (error: Scalar)
      ensures error == FirstError(validators, values, key, env)
    {
      var i := 0;
      while i < |validators|
        invariant 0 <= i <= |validators|
        invariant FirstError(validators, values, key, env) == FirstError(validators[i..], values, key, env)
      {
        var e := validators[i].behaviour.getError(values, key, env);
        if Truthy(e) {
          return e;
        }
        assert validators[i..][1..] == validators[i + 1..];
        i := i + 1;
      }
      return Bool(false);
    }

    /** `addValidator($name)`: check the name, then append a new instance of its class. */
    method AddValidator(vname: string, table: ClassTable) returns (thrown: Option<FormException>)
      requires WellFormed(table)
      modifies this`validators
      ensures thrown == if IsValidatorName(vname) then None else Some(UnknownValidator(vname))
      ensures validators == if IsValidatorName(vname) then old(validators) + [Builtin(vname, table)]
                            else old(validators)
      ensures IsValidatorName(vname) ==>
                SameIgnoringCase(validators[|validators| - 1].className, BuiltinNamespace + vname)
    {
      if !IsValidatorName(vname) {
        return Some(UnknownValidator(vname));
      }
      BuiltinClassName(vname, table);
      var cls := BuiltinNamespace + table.spelling(vname);
      validators := validators + [Validator(cls, table.make(cls))];
      return None;
    }

    /** `removeValidator($name)`: keep the validators not of class `Modules\developer\form\Validator\<name>`. */
    method RemoveValidator(vname: string)
      modifies this`validators
      ensures validators == WithoutInstancesOf(old(validators), RemovalNamespace + vname)
    {
      var target := RemovalNamespace + vname;
      var kept: seq<Validator> := [];
      var i := 0;
      while i < |validators|
        invariant 0 <= i <= |validators|
        invariant validators == old(validators)
        invariant kept == WithoutInstancesOf(validators[..i], target)
      {
        if validators[i].className != target {
          kept := kept + [validators[i]];
        }
        WithoutInstancesOfConcat(validators[..i], [validators[i]], target);
        assert validators[..i + 1] == validators[..i] + [validators[i]];
        i := i + 1;
      }
      assert validators[..i] == validators;
      validators := kept;
    }

    /** `addCustomValidator($validator)`: append a ready instance. */
    method AddCustomValidator(v: Validator)
      modifies this`validators
      ensures validators == old(validators) + [v]
    {
      validators := validators + [v];
    }

    /** `isRequired()`: some validator is exactly of class `Ip\Form\Validator\Required`. */
    method IsRequired() returns (required: bool)
      ensures required <==> exists i :: 0 <= i < |validators| && validators[i].className == RequiredClass
    {
      var i := 0;
      while i < |validators|
        invariant 0 <= i <= |validators|
        invariant forall j :: 0 <= j < i ==> validators[j].className != RequiredClass
      {
        if validators[i].className == RequiredClass {
          return true;
        }
        i := i + 1;
      }
      return false;
    }

    /** `getValidationAttributesStr($doctype)`: the validators' non-empty attribute texts. */
    method GetValidationAttributesStr() returns (s: string)
      ensures s == ValidationAttributes(validators)
    {
      s := "";
      var i := 0;
      while i < |validators|
        invariant 0 <= i <= |validators|
        invariant s == ValidationAttributes(validators[..i])
      {
        var args := validators[i].behaviour.attributes;
        if args != "" {
          s := s + " " + args;
        }
        assert s == ValidationAttributes(validators[..i]) + ValidationAttributes([validators[i]]);
        ValidationAttributesConcat(validators[..i], [validators[i]]);
        assert validators[..i + 1] == validators[..i] + [validators[i]];
        i := i + 1;
      }
      assert validators[..i] == validators;
    }

    /** `addAttribute($name, $value)`. */
    method AddAttribute(k: string, v: string)
      requires Valid()
      modifies this`attributes
      ensures Valid()
      ensures attributes == Put(old(attributes), k, v)
      ensures GetAttribute(k) == Str(v)
      ensures forall k2 :: k2 != k ==> GetAttribute(k2) == old(GetAttribute(k2))
    {
      PutDistinct(attributes, k, v);
      forall k2 {
        PutLookup(attributes, k, v, k2);
      }
      attributes := Put(attributes, k, v);
    }

    /** `removeAttribute($name)`. */
    method RemoveAttribute(k: string)
      requires Valid()
      modifies this`attributes
      ensures Valid()
      ensures attributes == Delete(old(attributes), k)
      ensures GetAttribute(k) == Bool(false)
      ensures forall k2 :: k2 != k ==> GetAttribute(k2) == old(GetAttribute(k2))
    {
      DeleteDistinct(attributes, k);
      forall k2 {
        DeleteLookup(attributes, k, k2);
      }
      attributes := Delete(attributes, k);
    }

    /** `getAttribute($name)`: the value, or `false` when the name is not set. */
    function GetAttribute(k: string): (r: Scalar)
      reads this
      ensures r == Bool(false) <==> k !in Keys(attributes)
      ensures r != Bool(false) ==> r.Str? && (k, r.s) in attributes
    {
      match Lookup(attributes, k)
      case Some(v) => Str(v)
      case None => Bool(false)
    }

    /** `setAttributes($attributes)`: replace the whole map. */
    method SetAttributes(a: seq<Entry>)
      requires Valid() && DistinctKeys(a)
      modifies this`attributes
      ensures Valid()
      ensures attributes == a
    {
      attributes := a;
    }

    /** `getId()`: the `id` attribute, or `false` once it has been removed. */
    function GetId(): (r: Scalar)
      reads this
      ensures r.Str? <==> "id" in Keys(attributes)
      ensures "id" !in Keys(attributes) ==> r == Bool(false)
      ensures r.Str? ==> ("id", r.s) in attributes
    {
      GetAttribute("id")
    }

    /** `getAttributesStr($doctype)`: every attribute as ` name="value"`, escaped. */
    method GetAttributesStr() returns (s: string)
      ensures s == AttributesStr(attributes)
    {
      s := "";
      var i := 0;
      while i < |attributes|
        invariant 0 <= i <= |attributes|
        invariant s == AttributesStr(attributes[..i])
      {
        var piece := " " + Escape(attributes[i].0) + "=\"" + Escape(attributes[i].1) + "\"";
        assert AttributesStr([attributes[i]]) == piece + "";
        s := s + piece;
        AttributesStrConcat(attributes[..i], [attributes[i]]);
        assert attributes[..i + 1] == attributes[..i] + [attributes[i]];
        i := i + 1;
      }
      assert attributes[..i] == attributes;
    }

    /** `addClass($cssClass)`. */
    method AddClass(c: string)
      requires Valid()
      modifies this`classes
      ensures Valid()
      ensures classes == WithClass(old(classes), c)
    {
      WithClassNoDup(classes, c);
      if c !in classes {
        classes := classes + [c];
      }
    }

    /** `removeClass($cssClass)`. */
    method RemoveClass(c: string)
      requires Valid()
      modifies this`classes
      ensures Valid()
      ensures classes == WithoutClass(old(classes), c)
    {
      WithoutClassNoDup(classes, c);
      classes := WithoutClass(classes, c);
    }

    /**
     * `getClasses()`: the class names in insertion order, none twice.
     * Re-adding a class that is present keeps its place; a class that was
     * removed and added again goes last.
     */
    function GetClasses(): (r: seq<string>)
      reads this
      requires Valid()
      ensures r == classes
      ensures NoDup(r)
    {
      classes
    }

    /** `getClassesStr()`: `class="` then each class after a space, then `"`. */
    method GetClassesStr() returns (s: string)
      requires Valid()
      ensures s == ClassAttribute(classes)
    {
      var cs := GetClasses();
      var answer := "";
      var i := 0;
      while i < |cs|
        invariant 0 <= i <= |cs|
        invariant answer == JoinClasses(cs[..i])
      {
        answer := answer + " " + cs[i];
        JoinClassesConcat(cs[..i], [cs[i]]);
        assert cs[..i + 1] == cs[..i] + [cs[i]];
        i := i + 1;
      }
      assert cs[..i] == cs;
      s := "class=\"" + answer + "\"";
    }

    /** `getValueAsString($values, $valueKey)`: the posted value, or "" when it is not set. */
    static function GetValueAsString(values: Values, key: string): (r: Scalar)
      ensures r != Null
      ensures key in values && values[key] != Null ==> r == values[key]
      ensures r == Str("") || (key in values && r == values[key])
    {
      if key in values && values[key] != Null then values[key] else Str("")
    }
  }
}
