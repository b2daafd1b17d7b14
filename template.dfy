/** Constructors of AWS CloudFormation intrinsic-function objects (as the
    CloudFormation template reference defines `Fn::Join`, `Fn::GetAtt` and
    `Ref`), over a JSON value. AsIntrinsic reads such an object back; it is
    the inverse the constructors are proved against. */
module Template {
  import opened Js

  /** A JSON value as it stands in a template. An object keeps its members
      in order. */
  datatype Value =
    | Null
    | Bool(b: bool)
    | Number(n: int)
    | Str(s: string)
    | Arr(items: seq<Value>)
    | Obj(members: seq<Member>)

  datatype Member = Member(key: string, value: Value)

  /** The intrinsic functions the module builds, with their arguments. */
  datatype Intrinsic =
    | FnJoin(delimiter: string, values: seq<Value>)
    | FnGetAtt(resource: string, attribute: string)
    | RefTo(name: string)

  const AccountIdPseudoParameter: string := "AWS::AccountId"

  /** Reads an intrinsic-function object: an object with exactly one member,
      whose key names the function and whose value is its argument in the
      documented shape. Anything else is None. */
  function AsIntrinsic(v: Value): Option<Intrinsic> {
    if !v.Obj? || |v.members| != 1 then None
    else
      var m := v.members[0];
      if m.key == "Fn::Join" then
        if m.value.Arr? && |m.value.items| == 2 && m.value.items[0].Str? && m.value.items[1].Arr?
        then Some(FnJoin(m.value.items[0].s, m.value.items[1].items))
        else None
      else if m.key == "Fn::GetAtt" then
        if m.value.Arr? && |m.value.items| == 2 && m.value.items[0].Str? && m.value.items[1].Str?
        then Some(FnGetAtt(m.value.items[0].s, m.value.items[1].s))
        else None
      else if m.key == "Ref" then
        if m.value.Str? then Some(RefTo(m.value.s)) else None
      else None
  }

  /** `Join(strs, delimiter = '')`: `{'Fn::Join': [delimiter, strs]}`. */
  function Join(strs: seq<Value>, delimiter: Option<string>): (r: Value)
    ensures AsIntrinsic(r) == Some(FnJoin(delimiter.GetOr(""), strs))
  {
    Obj([Member("Fn::Join", Arr([Str(delimiter.GetOr("")), Arr(strs)]))])
  }

  /** `Attr(resource, attr)`: `{'Fn::GetAtt': [resource, attr]}`. */
  function Attr(resource: string, attr: string): (r: Value)
    ensures AsIntrinsic(r) == Some(FnGetAtt(resource, attr))
  {
    Obj([Member("Fn::GetAtt", Arr([Str(resource), Str(attr)]))])
  }

  /** `Ref(ref)`: `{Ref: ref}`. */
  function Ref(ref: string): (r: Value)
    ensures AsIntrinsic(r) == Some(RefTo(ref))
  {
    Obj([Member("Ref", Str(ref))])
  }

  /** `AccountId()`: a reference to the account-id pseudo parameter. */
  function AccountId(): (r: Value)
    ensures AsIntrinsic(r) == Some(RefTo(AccountIdPseudoParameter))
  {
    Ref(AccountIdPseudoParameter)
  }

  /** The object the module's constructors build for an intrinsic. */
  function Build(i: Intrinsic): Value {
    match i
    case FnJoin(d, xs) => Join(xs, Some(d))
    case FnGetAtt(r, a) => Attr(r, a)
    case RefTo(x) => Ref(x)
  }

  /** Reading back what was built gives back the intrinsic. */
  lemma ReadBuilt(i: Intrinsic)
    ensures AsIntrinsic(Build(i)) == Some(i)
  {
  }

  /** Every object read as an intrinsic is exactly the object the matching
      constructor builds: no other member, no other argument shape. */
  lemma {:induction false} BuildRead(v: Value)
    ensures AsIntrinsic(v).Some? ==> Build(AsIntrinsic(v).value) == v
  {
    if AsIntrinsic(v).Some? {
      var m := v.members[0];
      assert v == Obj([m]);
      if m.key == "Fn::Join" {
        assert m.value == Arr([m.value.items[0], m.value.items[1]]);
      } else if m.key == "Fn::GetAtt" {
        assert m.value == Arr([m.value.items[0], m.value.items[1]]);
      }
    }
  }

  /** Join embeds its values unchanged and in order, after the delimiter;
      without a delimiter it joins with the empty string. */
  lemma JoinShape(strs: seq<Value>, delimiter: Option<string>)
    ensures var r := Join(strs, delimiter);
      r.Obj? && |r.members| == 1 && r.members[0].key == "Fn::Join"
      && r.members[0].value == Arr([Str(delimiter.GetOr("")), Arr(strs)])
    ensures Join(strs, None) == Join(strs, Some(""))
  {
  }

  /** The resource comes first and the attribute second: Attr is one-to-one
      and does not confuse its two arguments. */
  lemma AttrInjective(r1: string, a1: string, r2: string, a2: string)
    ensures Attr(r1, a1) == Attr(r2, a2) ==> r1 == r2 && a1 == a2
  {
    if Attr(r1, a1) == Attr(r2, a2) {
      assert AsIntrinsic(Attr(r1, a1)) == AsIntrinsic(Attr(r2, a2));
    }
  }

  /** AccountId() is Ref('AWS::AccountId'). */
  lemma AccountIdIsRef()
    ensures AccountId() == Ref("AWS::AccountId")
  {
  }
}
