/**
 * Sgml.Attribute: an attribute as the SGML reader keeps it. Objects are
 * reused, hence Reset; the DTD's definition of the attribute, assigned by
 * validation, supplies a default value.
 */
module SgmlAttribute {
  import opened Wrappers
  import opened SgmlText

  /** An attribute definition from the DTD; only its default value is part of this model. */
  datatype AttDef = AttDef(default: Option<Units>)

  class Attribute {
    /** The atomised name. */
    var name: Units
    /** The definition from the DTD, or null. */
    var dtdType: Option<AttDef>
    /** The quote character around the value. */
    var quoteChar: Unit
    /** The value as written, or null. */
    var literalValue: Option<Units>

    /** A new attribute: every field has its default, null or zero. */
    constructor ()
      ensures name == [] && dtdType.None? && quoteChar == 0 && literalValue.None?
      ensures IsDefault() && Value().None?
    {
      name, dtdType, quoteChar, literalValue := [], None, 0, None;
    }

    /** Reset: the name, value and quote character are set and the DTD definition is dropped. */
    method Reset(name: Units, value: Option<Units>, quote: Unit)
      modifies this
      ensures this.name == name && literalValue == value && quoteChar == quote && dtdType.None?
      ensures Value() == value && (IsDefault() <==> value.None?)
    {
      this.name := name;
      literalValue := value;
      quoteChar := quote;
      dtdType := None;
    }

    /** What validation does: the attribute's definition in the DTD is attached. */
    method SetDtdType(d: AttDef)
      modifies this`dtdType
      ensures dtdType == Some(d)
      ensures old(literalValue).Some? ==> Value() == old(Value())
      ensures old(literalValue).None? ==> Value() == d.default
    {
      dtdType := Some(d);
    }

    /**
     * Value: the value as written when there is one; otherwise the DTD's
     * default when a definition is attached; otherwise null.
     */
    function Value(): (v: Option<Units>)
      reads this
      ensures literalValue.Some? ==> v == literalValue
      ensures literalValue.None? && dtdType.Some? ==> v == dtdType.value.default
      ensures literalValue.None? && dtdType.None? ==> v.None?
    {
      if literalValue.Some? then literalValue
      else if dtdType.Some? then dtdType.value.default
      else None
    }

    /** IsDefault: no value was written, so Value comes from the DTD if from anywhere. */
    function IsDefault(): (b: bool)
      reads this
      ensures b <==> literalValue.None?
      ensures !b ==> Value() == literalValue
      ensures b && dtdType.None? ==> Value().None?
    {
      literalValue.None?
    }
  }

  /** After Reset with a value, that value is what Value gives, whatever definition is attached later. */
  method ResetThenValidate(a: Attribute, name: Units, value: Units, quote: Unit, d: AttDef)
    modifies a
    ensures a.Value() == Some(value) && !a.IsDefault()
  {
    a.Reset(name, Some(value), quote);
    a.SetDtdType(d);
  }
}
