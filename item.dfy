/**
 * The declaration-level Solidity AST: the items of a source unit
 * (Solidity grammar rule `sourceUnit`) and their payloads, with the few
 * helpers that inspect them.
 *
 * The leaf values that this layer composes but never builds or inspects
 * (types, expressions, blocks, paths, call arguments, raw tokens, semver
 * requirements, doc comments, source spans) are abstract types.
 */
module Ast {
  import opened Wrappers

  type Ty(==)
  type Expr(==)
  type Block(==)
  type Path(==)
  type CallArgs(==)
  type Token(==)
  type SemverReq(==)
  type DocComment(==)
  type Span(==)

  /** An identifier: its interned text and where it occurs. */
  datatype Ident = Ident(name: string, span: Span)

  /** A string literal: where it occurs and its decoded value. */
  datatype StrLit = StrLit(span: Span, value: string)

  /** A list of variable declarations. */
  type ParameterList = seq<VariableDeclaration>

  /** A top-level item in a Solidity source file. */
  datatype Item = Item(docs: seq<DocComment>, span: Span, kind: ItemKind)

  /** The eleven kinds of item (grammar rule `sourceUnit`, expanded). */
  datatype ItemKind =
    | Pragma(pragma: PragmaDirective)
    | Import(importDirective: ImportDirective)
    | Using(usingDirective: UsingDirective)
    | Contract(contract: ItemContract)
    | Function(func: ItemFunction)
    | Variable(variable: VariableDefinition)
    | Struct(struct: ItemStruct)
    | Enum(enum: ItemEnum)
    | Udvt(udvt: ItemUdvt)
    | Error(error: ItemError)
    | Event(event: ItemEvent)

  /** `pragma solidity ^0.8.0;` */
  datatype PragmaDirective = PragmaDirective(tokens: PragmaTokens)

  /** The parsed or unparsed tokens of a pragma directive. */
  datatype PragmaTokens =
    | Version(solidity: Ident, req: SemverReq)                   // `pragma solidity <req>;`
    | Custom(name: IdentOrStrLit, value: Option<IdentOrStrLit>)  // `pragma <name> [value];`
    | Verbatim(tokens: seq<Token>)                               // `pragma <tokens>...;`
  {
    /**
     * The name and the optional value of a `pragma <name> [value];`
     * directive. Only the `Custom` shape has them: a version pragma and an
     * unparsed one both give `None`.
     */
    function AsNameAndValue(): (r: Option<(IdentOrStrLit, Option<IdentOrStrLit>)>)
      ensures r.Some? <==> Custom?
      ensures r.Some? ==> r.value.0 == name && r.value.1 == value
    {
      match this
      case Custom(name, value) => Some((name, value))
      case _ => None
    }
  }

  /**
   * An identifier or a string literal, which pragma directives accept
   * interchangeably.
   */
  datatype IdentOrStrLit = Ident(ident: Ident) | StrLit(lit: StrLit)
  {
    /** The text of the identifier, or the decoded value of the literal. */
    function Value(): (s: string)
      ensures Ident? ==> s == ident.name
      ensures StrLit? ==> s == lit.value
    {
      match this
      case Ident(ident) => ident.name
      case StrLit(lit) => lit.value
    }

    /** The span of whichever variant is present. */
    function Span(): (sp: Span)
      ensures Ident? ==> sp == ident.span
      ensures StrLit? ==> sp == lit.span
    {
      match this
      case Ident(ident) => ident.span
      case StrLit(lit) => lit.span
    }
  }

  /** `import "foo.sol";` (grammar rule `importDirective`). */
  datatype ImportDirective = ImportDirective(path: StrLit, items: ImportItems)

  /** The four aliasing forms of an import. */
  datatype ImportItems =
    | Plain(alias: Option<Ident>)                     // `import "foo.sol" as Foo;`
    | Aliases(aliases: seq<(Ident, Option<Ident>)>)   // `import { Foo as Bar, Baz } from "foo.sol";`
    | Glob(globAlias: Option<Ident>)                  // `import * as Foo from "foo.sol";`

  /**
   * `using { A, B.add as + } for uint256 global;` (grammar rule
   * `usingDirective`); `ty == None` stands for `*`.
   */
  datatype UsingDirective = UsingDirective(list: UsingList, ty: Option<Ty>, global: bool)

  /** The path list of a `using` directive. */
  datatype UsingList =
    | Single(path: Path)                                          // `A.B`
    | Multiple(paths: seq<(Path, Option<UserDefinableOperator>)>) // `{ A, B.add as + }`

  /** The operators a `using` directive may bind (`userDefinableOperator`). */
  datatype UserDefinableOperator =
    | BitAnd | BitNot | BitOr | BitXor | Add | Div | Rem | Mul | Sub
    | Eq | Ge | Gt | Le | Lt | Ne

  /** `contract Foo is Bar("foo"), Baz { ... }` (grammar rule `contractDefinition`). */
  datatype ItemContract = ItemContract(
    kind: ContractKind,
    name: Ident,
    inheritance: seq<Modifier>,
    body: seq<Item>)

  /** True of the characters a Solidity keyword is spelled with. */
  predicate IsKeywordChar(c: char) {
    'a' <= c <= 'z'
  }

  /** True of a non-empty spelling made of keyword characters only. */
  predicate IsKeyword(s: string) {
    s != [] && forall i | 0 <= i < |s| :: IsKeywordChar(s[i])
  }

  datatype ContractKind = Contract | AbstractContract | Interface | Library
  {
    /**
     * The keyword spelling; `abstract contract` is the only one that is
     * two words.
     */
    function ToStr(): (s: string)
      ensures AbstractContract? <==> ' ' in s
      ensures !AbstractContract? ==> IsKeyword(s)
    {
      match this
      case Contract => "contract"
      case AbstractContract => "abstract contract"
      case Interface => "interface"
      case Library => "library"
    }
  }

  /** Distinct contract kinds are spelled differently. */
  lemma ContractKindToStrInjective(a: ContractKind, b: ContractKind)
    ensures a.ToStr() == b.ToStr() ==> a == b
  {
  }

  /** `function helloWorld() external pure returns(string memory);` */
  datatype ItemFunction = ItemFunction(
    kind: FunctionKind,
    header: FunctionHeader,
    body: Option<Block>)   // `None` is a declaration ended by `;`

  /**
   * A function header. One permissive structure for all five kinds of
   * function; which fields are legal for which kind is checked later.
   */
  datatype FunctionHeader = FunctionHeader(
    name: Option<Ident>,
    parameters: ParameterList,
    visibility: Option<Visibility>,
    stateMutability: Option<StateMutability>,
    modifiers: seq<Modifier>,
    virtual: bool,
    override: Option<Override>,
    returnParams: ParameterList)

  datatype FunctionKind = Constructor | Function | Fallback | Receive | Modifier
  {
    /** The keyword spelling. */
    function ToStr(): (s: string)
      ensures IsKeyword(s)
    {
      match this
      case Constructor => "constructor"
      case Function => "function"
      case Fallback => "fallback"
      case Receive => "receive"
      case Modifier => "modifier"
    }
  }

  lemma FunctionKindToStrInjective(a: FunctionKind, b: FunctionKind)
    ensures a.ToStr() == b.ToStr() ==> a == b
  {
  }

  /** A modifier invocation or an inheritance specifier: same shape, two uses. */
  datatype Modifier = Modifier(name: Path, arguments: CallArgs)

  /** `override(a, b.c)`; no paths is a bare `override`. */
  datatype Override = Override(span: Span, paths: seq<Path>)

  /**
   * `string memory hello`. The name is always present when the declaration
   * was parsed inside a parameter list or a statement.
   */
  datatype VariableDeclaration = VariableDeclaration(
    ty: Ty,
    storage: Option<Storage>,
    indexed: bool,
    name: Option<Ident>)

  datatype Storage = Memory | Storage | Calldata
  {
    /** The keyword spelling. */
    function ToStr(): (s: string)
      ensures IsKeyword(s)
    {
      match this
      case Memory => "memory"
      case Storage => "storage"
      case Calldata => "calldata"
    }
  }

  lemma StorageToStrInjective(a: Storage, b: Storage)
    ensures a.ToStr() == b.ToStr() ==> a == b
  {
  }

  /** How a function can mutate the EVM state. */
  datatype StateMutability = Pure | View | Payable
  {
    /** The keyword spelling. */
    function ToStr(): (s: string)
      ensures IsKeyword(s)
    {
      match this
      case Pure => "pure"
      case View => "view"
      case Payable => "payable"
    }
  }

  lemma StateMutabilityToStrInjective(a: StateMutability, b: StateMutability)
    ensures a.ToStr() == b.ToStr() ==> a == b
  {
  }

  /** Visibility, declared from the most restricted to the least. */
  datatype Visibility = Private | Internal | Public | External
  {
    /** The keyword spelling. */
    function ToStr(): (s: string)
      ensures IsKeyword(s)
    {
      match this
      case Private => "private"
      case Internal => "internal"
      case Public => "public"
      case External => "external"
    }

    /** The position of the variant in the declaration (its discriminant). */
    function Rank(): (n: nat)
      ensures n < 4
    {
      match this
      case Private => 0
      case Internal => 1
      case Public => 2
      case External => 3
    }
  }

  /**
   * The declaration order is a strict total order from restricted to
   * unrestricted: the ranks follow `Private < Internal < Public < External`
   * and tell every two visibilities apart.
   */
  lemma VisibilityOrder()
    ensures Private.Rank() < Internal.Rank() < Public.Rank() < External.Rank()
    ensures forall a: Visibility, b: Visibility :: a.Rank() == b.Rank() ==> a == b
  {
  }

  lemma VisibilityToStrInjective(a: Visibility, b: Visibility)
    ensures a.ToStr() == b.ToStr() ==> a == b
  {
  }

  /**
   * `uint256 constant FOO = 42;` (grammar rule `stateVariableDeclaration`).
   */
  datatype VariableDefinition = VariableDefinition(
    ty: Ty,
    visibility: Option<Visibility>,
    mutability: Option<VarMut>,
    storage: Option<Storage>,
    override: Option<Override>,
    name: Ident,
    initializer: Option<Expr>)

  /** The mutability of a state variable. */
  datatype VarMut = Immutable | Constant
  {
    /** The keyword spelling. */
    function ToStr(): (s: string)
      ensures IsKeyword(s)
    {
      match this
      case Immutable => "immutable"
      case Constant => "constant"
    }
  }

  lemma VarMutToStrInjective(a: VarMut, b: VarMut)
    ensures a.ToStr() == b.ToStr() ==> a == b
  {
  }

  /** `struct Foo { uint256 bar; }` */
  datatype ItemStruct = ItemStruct(name: Ident, fields: seq<VariableDeclaration>)

  /** `enum Foo { A, B, C }` */
  datatype ItemEnum = ItemEnum(name: Ident, variants: seq<Ident>)

  /** `type Foo is uint256;` */
  datatype ItemUdvt = ItemUdvt(name: Ident, ty: Ty)

  /** `error Foo(uint256 a, uint256 b);` */
  datatype ItemError = ItemError(name: Ident, parameters: ParameterList)

  /** `event Transfer(address indexed from, address indexed to, uint256 value);` */
  datatype ItemEvent = ItemEvent(name: Ident, parameters: ParameterList, anonymous: bool)

  /**
   * An identifier and a string literal with the same text have the same
   * value, wherever they occur.
   */
  lemma ValueIgnoresVariant(text: string, identSpan: Span, litSpan: Span)
    ensures IdentOrStrLit.Ident(Ident.Ident(text, identSpan)).Value() == IdentOrStrLit.StrLit(StrLit.StrLit(litSpan, text)).Value() == text
  {
  }
}
