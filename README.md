# Form field of ImpressPages, in Dafny

This project models `Ip\Form\Field`, the abstract base class of every form
field in the ImpressPages CMS. It proves properties of that model.

A field object holds:

- presentation data: label, note, hint, name and value;
- an ordered chain of validator objects;
- an ordered map of HTML attributes;
- an insertion-ordered set of CSS classes.

Its methods build, query and serialise these in place, so the model is a
Dafny `class Field` (module `Form`). Its fields are the PHP object's
properties, except `dbField` and `environment`, which are not modelled.
Each method's `modifies` clause names only the field the PHP method
changes. `Form.Field.Valid()` says what a PHP array guarantees: no attribute
name and no class occurs twice. `Create` establishes it, every method that
changes the field keeps it, and the methods that rely on it require it. The
methods are proved against specification functions, which live in their own
modules:

- `Validators`: the validator chain, PHP's first-truthy-error rule, the
  filter in `removeValidator`, and the check on validator names;
- `Attributes`: a PHP array from attribute name to value, kept as a sequence
  of entries with distinct names and insertion order;
- `Classes`: the class set, stored as the keys of a PHP array;
- `Html`: `htmlspecialchars` (`Escape`) and the inverse of `Escape` (`Decode`);
- `Php`: PHP truthiness (`empty`, `if ($x)`) and integer-to-decimal
  conversion.

Behaviours kept from the code as written:

- **Validator namespaces differ.** `addValidator` instantiates
  `Ip\Form\Validator\<name>`, while `removeValidator` compares against
  `Modules\developer\form\Validator\<name>`. So `removeValidator` never
  removes a validator that `addValidator` attached
  (`Validators.BuiltinsSurviveRemoval`).
- **Only truthy errors count.** `validate` returns an error only when it is
  truthy, so a validator that answers `""` or `"0"` lets the value pass.
- **Options use `!empty`.** The constructor tests each option with `!empty`,
  so the option `'0'` counts as absent.
- **A string `css` option ends up as class `0`.** The option is stored as
  the value under key 0, but the classes are the array's keys. The field's
  only class therefore becomes `0`, not the given string.
- **The validator-name check accepts a trailing newline.** It is
  `/^[a-z0-9]+$/i`, and PCRE's `$` also matches before a final newline.

One would expect `removeValidator` to remove the validators of the named
class. The code compares against another namespace instead, and the model
follows the code.

Randomness and class loading become parameters:

- `rand(1, PHP_INT_MAX)` is the `randomId` argument of `Form.Field.Create`;
- PHP's class loader is a `ClassTable`, which gives the declared spelling of
  a class name and what a new instance of it does. `Validators.WellFormed`
  states what PHP's lookup guarantees: the spelling differs from the
  requested name only in ASCII case, and names equal up to case find the
  same class. It also states, as the comparison at `Field.php` line 153
  presumes, that the `Required` class is declared as `Required`;
- each validator's `getError` and `validatorAttributes` are arbitrary values
  the validator carries.

A Dafny constructor cannot end in an exception, and `__construct` can throw
`\Ip\Form\Exception`. So the constructor is modelled by the static method
`Form.Field.Create`, which returns either the new field or the exception.

## Model

| member | source | states |
|---|---|---|
| Form.Field.constructor | Ip/Form/Field.php:24-36 | a new field has no validators, no attributes, no classes and null presentation data |
| Form.Field.Create | Ip/Form/Field.php:35-78 | the constructor throws UnknownValidator iff some validator name fails the check, and carries the first such name; otherwise the chain is one built-in instance per name in order, each truthy option is stored and each falsy one left null, a string `css` gives the class list `["0"]`, the attributes are the given ones, and an `id` of the form `field_<random>` is appended exactly when none was given, so `getId()` then gives the given id or the generated one; the result has distinct attribute names and classes |
| Form.Field.ApplyOptions | Ip/Form/Field.php:44-75 | the options after `validators`: only truthy options overwrite a property; `css` sets the classes; the attributes always contain an `id` |
| Form.Field.ApplyAttributes | Ip/Form/Field.php:68-75 | the attributes become the given ones, plus `id => field_<random>` at the end when `id` is not set |
| Form.GeneratedIdShape | Ip/Form/Field.php:73-75 | a generated id is `field_` followed by the decimal digits of the random number, with no leading zero, and those digits parse back to that number |
| Php.ParseDecimalString | Ip/Form/Field.php:74 | the decimal text of an integer, as string concatenation produces it, parses back to the integer |
| Php.DecimalStringNoLeadingZero | Ip/Form/Field.php:74 | the decimal text of a positive integer does not start with `0` |
| Form.Field.Validate | Ip/Form/Field.php:176-185 | `validate` returns what the chain specification `FirstError` gives |
| Validators.FirstErrorIsFirstFailure | Ip/Form/Field.php:176-185 | the result is falsy iff no validator reports a truthy error, and it is then `false`; otherwise it is the error of the first validator that does |
| Validators.FirstErrorConcat | Ip/Form/Field.php:178-182 | the loop stops at the first error: validators after it are never consulted, and appending validators cannot change an existing failure |
| Form.Field.AddValidator | Ip/Form/Field.php:195-204 | a name failing `/^[a-z0-9]+$/i` throws UnknownValidator and leaves the chain unchanged; any other name appends one new instance of `Ip\Form\Validator\<name>`, whose class name equals that path up to ASCII case |
| Validators.AcceptedNameIsPlain | Ip/Form/Field.php:196-199 | an accepted name has no backslash, space, semicolon or parenthesis, so it cannot leave the validator namespace; every character before the last is an ASCII letter or digit |
| Validators.ValidatorNameExamples | Ip/Form/Field.php:196-197 | `Required` and `Email` pass the check; `""` and `Required; DROP` fail it; one trailing newline passes but two fail |
| Validators.BuiltinClassName | Ip/Form/Field.php:199-200 | the instance made for a name is of a class spelled `Ip\Form\Validator\<name>` up to ASCII case |
| Validators.BuiltinChainSnoc | Ip/Form/Field.php:38-42 | each further name in the `validators` option appends its instance after the earlier ones, as one more `addValidator` does |
| Validators.BuiltinIsRequired | Ip/Form/Field.php:153 | a validator attached by name is of class `Ip\Form\Validator\Required` iff the name is `Required` up to ASCII case |
| Validators.BuiltinChainRequired | Ip/Form/Field.php:38-42 | a field built from the `validators` option has a validator of the Required class iff one of the names is `Required` up to case |
| Validators.EmailIsNotRequired | Ip/Form/Field.php:150-158 | a validator added as `Email` is not of the Required class |
| Form.Field.RemoveValidator | Ip/Form/Field.php:211-220 | the chain becomes the old chain minus every validator of class `Modules\developer\form\Validator\<name>`, in order |
| Validators.WithoutInstancesOf | Ip/Form/Field.php:213-219 | the filtered chain is no longer than the old one and holds no validator of the removed class |
| Validators.WithoutInstancesOfConcat | Ip/Form/Field.php:213-219 | filtering a concatenation filters each part and keeps their order |
| Validators.WithoutAbsentInstances | Ip/Form/Field.php:213-219 | a chain with no validator of the removed class is kept whole |
| Validators.WithoutInstancesOfKeeps | Ip/Form/Field.php:215-216 | every validator of another class survives the filter |
| Validators.BuiltinsSurviveRemoval | Ip/Form/Field.php:199 | a chain built by `addValidator` is left unchanged by `removeValidator`, because the two methods use different namespaces |
| Form.Field.AddCustomValidator | Ip/Form/Field.php:226-228 | the given instance is appended at the end of the chain |
| Form.Field.IsRequired | Ip/Form/Field.php:150-158 | true iff some validator's class is exactly `Ip\Form\Validator\Required` |
| Form.Field.GetValidationAttributesStr | Ip/Form/Field.php:258-267 | the result is the chain's validation-attribute text: every non-empty `validatorAttributes()` after a space, in chain order |
| Validators.ValidationAttributesConcat | Ip/Form/Field.php:260-265 | the text of a concatenated chain is the concatenation of the two texts |
| Validators.ValidationAttributesEmpty | Ip/Form/Field.php:260-266 | the text is empty iff no validator has attributes |
| Form.Field.AddAttribute | Ip/Form/Field.php:238-240 | the map becomes the put of `name => value`, keeps distinct names, `getAttribute(name)` then gives the value, and every other name gives what it gave before |
| Attributes.PutLookup | Ip/Form/Field.php:239 | after a put, the name finds the new value and every other name finds its old value |
| Attributes.PutExisting | Ip/Form/Field.php:239 | overwriting an existing name keeps its position and changes only its value |
| Attributes.PutNew | Ip/Form/Field.php:239 | a new name is appended after all existing ones |
| Attributes.PutDistinct | Ip/Form/Field.php:239 | a put keeps the names distinct |
| Attributes.PutKeys | Ip/Form/Field.php:239 | a put adds the name and no other |
| Form.Field.RemoveAttribute | Ip/Form/Field.php:247-249 | the map becomes the delete of the name, keeps distinct names, `getAttribute(name)` then gives `false`, and every other name gives what it gave before |
| Attributes.DeleteLookup | Ip/Form/Field.php:248 | after a delete, the name is missing and every other name finds its old value |
| Attributes.DeleteKeys | Ip/Form/Field.php:248 | a delete removes exactly that name |
| Attributes.DeleteAbsent | Ip/Form/Field.php:248 | unsetting an absent name changes nothing |
| Attributes.DeleteExact | Ip/Form/Field.php:248 | unsetting a present name removes its one entry and keeps the others in order |
| Attributes.DeleteDistinct | Ip/Form/Field.php:248 | a delete keeps the names distinct |
| Attributes.PutThenDelete | Ip/Form/Field.php:238-249 | adding a new attribute and removing it again restores the map |
| Attributes.Lookup | Ip/Form/Field.php:378-384 | the lookup misses iff the name is not a key; on a hit, the map holds the name with that value |
| Attributes.LookupAppended | Ip/Form/Field.php:73-75 | an `id` appended to attributes that lack one is what a lookup of `id` finds |
| Attributes.LookupEntry | Ip/Form/Field.php:378-380 | with distinct names, every entry is what a lookup of its name finds |
| Form.Field.GetAttribute | Ip/Form/Field.php:378-384 | `false` iff the name is not set; otherwise the value stored under it |
| Form.Field.SetAttributes | Ip/Form/Field.php:390-392 | the map becomes the given one |
| Form.Field.GetId | Ip/Form/Field.php:394-396 | a string iff `id` is set, and then the stored id; exactly `false` otherwise |
| Form.Field.GetAttributesStr | Ip/Form/Field.php:121-127 | the result is the serialisation of the map: ` name="value"` per entry in map order, both parts escaped |
| Attributes.ParseAttributesStr | Ip/Form/Field.php:121-127 | the serialisation is lossless: parsing it and decoding entities gives back exactly the attributes, in order |
| Attributes.AttributesStrConcat | Ip/Form/Field.php:122-126 | serialising a concatenation concatenates the serialisations |
| Attributes.AttributesStrNoAngleBrackets | Ip/Form/Field.php:124 | no name or value can put `<` or `>` into the serialised attributes |
| Html.Escape | Ip/Form/Field.php:124 | the escaped text contains no `<`, `>` or `"` |
| Html.DecodeEscape | Ip/Form/Field.php:124 | decoding entities undoes `htmlspecialchars` |
| Html.EscapeInjective | Ip/Form/Field.php:124 | different texts escape differently |
| Html.EscapePlain | Ip/Form/Field.php:124 | text without `&`, `<`, `>` and `"` is unchanged by escaping |
| Form.Field.AddClass | Ip/Form/Field.php:404-406 | the classes become the old ones plus the new class at the end, or stay as they were when it is already there; they stay distinct |
| Classes.WithClass | Ip/Form/Field.php:404-406 | adding a class keeps every old class as a prefix, contains the new class, and adds nothing else |
| Classes.WithClassIdempotent | Ip/Form/Field.php:405 | adding a class twice is adding it once |
| Classes.WithClassNoDup | Ip/Form/Field.php:405 | adding a class keeps the classes distinct |
| Form.Field.RemoveClass | Ip/Form/Field.php:408-410 | the classes become the old ones without that class, and stay distinct |
| Classes.WithoutClass | Ip/Form/Field.php:408-410 | after removal, a class is present iff it was present before and is not the removed one |
| Classes.WithoutAbsentClass | Ip/Form/Field.php:409 | removing an absent class changes nothing |
| Classes.WithoutClassExact | Ip/Form/Field.php:409 | removing a class takes out its one occurrence and keeps the others in order |
| Classes.WithoutClassNoDup | Ip/Form/Field.php:409 | removal keeps the classes distinct |
| Classes.AddThenRemoveClass | Ip/Form/Field.php:404-410 | adding a new class and removing it again restores the classes |
| Form.Field.GetClasses | Ip/Form/Field.php:416-418 | the result is the field's classes, none twice, in insertion order: re-adding a class that is present keeps its place, and a class that was removed and added again goes last |
| Form.Field.GetClassesStr | Ip/Form/Field.php:425-431 | walking `getClasses()`, the result is `class="`, then every class after a space in order, then `"` |
| Classes.SplitJoinClasses | Ip/Form/Field.php:426-430 | classes without spaces can be read back from the joined text, in order |
| Classes.JoinClassesConcat | Ip/Form/Field.php:426-429 | joining a concatenation concatenates the joins |
| Classes.NoClassesAttribute | Ip/Form/Field.php:430 | a field without classes still renders `class=""` |
| Form.Field.GetValueAsString | Ip/Form/Field.php:133-139 | the posted value when it is set and not null, otherwise `""`; never null |

## Left out

- `render` and `__toString` are abstract or depend on the configured
  doctype, and are not part of this model. Neither are `getLayout`,
  `getType` and `getTypeClass`, which return constants.
- The plain getters and setters are not modelled as separate members. This
  covers `getLabel`/`setLabel`, note, hint, name, value, `getValidators`,
  `getAttributes` and `getValidationInputName`. The model reads and assigns
  the fields directly.
- The `dbField` and `environment` properties and their getters and setters
  are not modelled. Nothing in the modelled operations reads them;
  `validate` takes the environment as a parameter.
- The `$doctype` parameter of `getAttributesStr` and
  `getValidationAttributesStr` is unused by the code, and is dropped.
- `rand(1, PHP_INT_MAX)` is the caller-supplied `randomId`; its distribution
  is not modelled.
- Class loading is not modelled: a name that passes the check but names no
  existing class is a fatal error in PHP. This includes a name with a
  trailing newline. The `ClassTable` gives every name a class.
- PHP resolves class names without regard to case. Only its effect on
  `get_class` is modelled, through `ClassTable.spelling`.
- Validator bodies are not part of this model. `getError` is a pure function
  of the values, the key and the environment, so side effects of a
  validator are not modelled.
- `htmlspecialchars` is modelled with its default flags before PHP 8.1
  (`ENT_COMPAT`), on well-formed text: `&`, `<`, `>` and `"` are escaped,
  and the single quote is not. From PHP 8.1 the default also escapes `'`
  as `&#039;`; that, invalid UTF-8 and other flags are not modelled.
- `Decode` decodes only the four named entities `Escape` produces. It is
  not PHP's `htmlspecialchars_decode`, which also decodes numeric forms.
- A `css` option given as an array calls `setCssClasses`, which this file
  does not define. Only the string case is modelled.
- Attribute names and values are strings. PHP turns a decimal-looking key
  into an integer. The model keeps it as its canonical string, so
  `getClasses` gives `"0"` where PHP gives the integer `0`. Null attribute
  values, which `isset` treats as absent, are not modelled.
- Posted values and options are scalars: null, booleans, integers and
  strings. Floats and arrays are not modelled.
