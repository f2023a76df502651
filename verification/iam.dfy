/** The input model: the decoded AWS IAM policy as the `aws_iam` crate hands it
    to the transpiler. JSON decoding itself is not part of this model; these
    datatypes are its output. */
module Iam {

  /** A field that holds one value, a list of values, or the wildcard `Any`. */
  datatype OneOrAny<T> = One(one: T) | AnyOf(list: seq<T>) | Any

  /** A field that holds one value or a list of values. */
  datatype OneOrAll<T> = Single(single: T) | All(all: seq<T>)

  datatype Option<T> = None | Some(value: T)

  /** A possibly qualified name such as `aws:username` (qualifier `aws`). */
  datatype QString = QString(qualifier: Option<string>, value: string)

  /** The display form of a qualified name: `qualifier:value`, or `value`. */
  function QStringText(q: QString): string
  {
    match q.qualifier
    case Some(p) => p + ":" + q.value
    case None => q.value
  }

  type i64 = x: int | -0x8000_0000_0000_0000 <= x < 0x8000_0000_0000_0000

  /** A literal in a condition block. Floating-point values are not modelled. */
  datatype ConditionValue = StringValue(s: string) | IntegerValue(i: i64) | BoolValue(b: bool)

  datatype GlobalOperator =
    | StringEquals | StringNotEquals | StringEqualsIgnoreCase | StringNotEqualsIgnoreCase
    | StringLike | StringNotLike
    | NumericEquals | NumericNotEquals | NumericLessThan | NumericLessThanEquals
    | NumericGreaterThan | NumericGreaterThanEquals
    | DateEquals | DateNotEquals | DateLessThan | DateLessThanEquals
    | DateGreaterThan | DateGreaterThanEquals
    | Bool | BinaryEquals | IpAddress | NotIpAddress
    | ArnEquals | ArnLike | ArnNotEquals | ArnNotLike | Null
    | Other(name: string)

  /** The `ForAnyValue:` / `ForAllValues:` prefix of an operator. */
  datatype Quantifier = ForAnyValue | ForAllValues

  datatype ConditionOperator = ConditionOperator(quantifier: Option<Quantifier>, operator: GlobalOperator)

  datatype AwsEffect = AwsAllow | AwsDeny

  datatype PrincipalType = AWS | Service | Federated | CanonicalUser

  datatype Principal =
    | Principal(kinds: map<PrincipalType, OneOrAny<string>>)
    | NotPrincipal(kinds: map<PrincipalType, OneOrAny<string>>)

  datatype Action = Action(actions: OneOrAny<QString>) | NotAction(actions: OneOrAny<QString>)

  datatype Resource = Resource(resources: OneOrAny<string>) | NotResource(resources: OneOrAny<string>)

  /** A condition block: operators in decoder order, each with its keys in decoder order. */
  type Condition = seq<(ConditionOperator, seq<(QString, OneOrAll<ConditionValue>)>)>

  datatype IamStatement = IamStatement(
    effect: AwsEffect,
    principal: Option<Principal>,
    action: Action,
    resource: Resource,
    condition: Option<Condition>)

  datatype PolicyDocument = PolicyDocument(statement: OneOrAll<IamStatement>)
}
