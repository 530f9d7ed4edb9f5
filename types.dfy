/**
 * The value model of src/types.rs: wire types, typed values, named typed slots (Data)
 * and remote calls (metadata plus a handler).
 */
module Types {
  import opened Errors

  /** Rust's `i32`. */
  type int32 = x: int | -0x8000_0000 <= x < 0x8000_0000

  /** Rust's `f32`, kept as its 32 bits: nothing here does arithmetic on it. */
  datatype Float32 = Float32(bits: bv32)

  datatype Type = Void | Int | Float | String

  datatype Value = Null | Int(i: int32) | Float(f: Float32) | String(s: string)

  /** `impl From<()> for Value`. */
  function FromUnit(): (v: Value)
    ensures v.Null?
  {
    Null
  }

  /** A named slot of a declared type holding the value last bound to it. */
  datatype Data = Data(name: string, ty: Type, vl: Value)
  {
    /** `Data::new`: a slot starts out holding `Null`. */
    static function New(name: string, ty: Type): (d: Data)
      ensures d.name == name && d.ty == ty && d.vl.Null?
    {
      Data(name, ty, Null)
    }

    /**
     * `Data::set_value`: wire text becomes the slot's value when the slot is
     * string-typed; every other type stores `Null` (numeric text is never parsed).
     * The name and the type never change.
     */
    function SetValue(text: string): (d: Data)
      ensures d.name == name && d.ty == ty
      ensures ty.String? ==> d.vl == Value.String(text)
      ensures !ty.String? ==> d.vl.Null?
    {
      this.(vl := match ty
        case String => Value.String(text)
        case _ => Null)
    }
  }

  /**
   * `FnArgs`, a `HashMap<String, Data>`, as its entries in iteration order. Rust's map
   * has distinct keys; nothing proved here depends on it, so any list is allowed.
   */
  type FnArgs = seq<(string, Data)>

  /**
   * A remote call: documentation, name, declared argument slots, result slot and the
   * handler, an arbitrary function of the bound arguments (the closure's own captured
   * state is not modelled).
   */
  datatype RemoteCall = RemoteCall(doc: string, name: string, arguments: FnArgs, result: Data, body: FnArgs -> Data)
  {
    /** `RemoteCall::new`: stores every part unchanged. */
    static function New(doc: string, name: string, args: FnArgs, result: Data, body: FnArgs -> Data): (c: RemoteCall)
      ensures c.doc == doc && c.name == name && c.arguments == args && c.result == result
      ensures forall a :: c.body(a) == body(a)
    {
      RemoteCall(doc, name, args, result, body)
    }

    /** `RemoteCall::call`: always succeeds with the handler applied to the current arguments. */
    function Call(): (r: Result<Data>)
      ensures r.Ok? && r.value == body(arguments)
    {
      Ok(body(arguments))
    }
  }

  /** Binding the same slot twice keeps only the second text (last write wins). */
  lemma SetValueLastWins(d: Data, first: string, second: string)
    ensures d.SetValue(first).SetValue(second) == d.SetValue(second)
  {
  }

  /** What a slot held before binding does not influence what it holds after. */
  lemma SetValueForgetsOld(d: Data, e: Data, text: string)
    requires d.name == e.name && d.ty == e.ty
    ensures d.SetValue(text) == e.SetValue(text)
  {
  }
}
