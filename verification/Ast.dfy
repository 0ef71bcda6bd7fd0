/** The syntax tree (src/ast/ast.hpp). A here-document, which the program shares
    between the tree and the parser, is named here by its index in the order
    the `<<` operators are parsed. */
module Ast {
  import opened Prelude
  import opened Tokens

  datatype Assignment = Assignment(name: string, value: Word)

  datatype HereDoc = HereDoc(strip: bool, literal: bool, delimiter: string)

  datatype Target = WordTarget(word: Word) | HereDocTarget(id: nat, doc: HereDoc)

  datatype Redirect = Redirect(ioNumber: Option<nat>, op: Token, target: Target)

  datatype SimpleCommand = SimpleCommand(assignments: seq<Assignment>, words: seq<Word>, redirects: seq<Redirect>)

  datatype Separator = NoSeparator | Sequential | Async

  datatype Command =
    | Simple(cmd: SimpleCommand)
    | Compound(body: CompoundCommand, redirects: seq<Redirect>)
    | FunctionDefinition(name: string, body: CompoundCommand, redirects: seq<Redirect>)

  datatype Pipeline = Pipeline(negated: bool, commands: seq<Command>)

  datatype AndOrPart = AndOrPart(isAnd: bool, pipeline: Pipeline)

  datatype AndOr = AndOr(first: Pipeline, rest: seq<AndOrPart>)

  datatype ListItem = ListItem(andOr: AndOr, sep: Separator)

  datatype List = List(items: seq<ListItem>)

  datatype CaseItem = CaseItem(patterns: seq<Word>, body: List)

  datatype Branch = Branch(cond: List, body: List)

  datatype CompoundCommand =
    | BraceGroup(list: List)
    | Subshell(list: List)
    | ForClause(varName: string, words: Option<seq<Word>>, list: List)
    | CaseClause(subject: Word, items: seq<CaseItem>)
    | IfClause(branches: seq<Branch>, elseBranch: Option<List>)
    | WhileClause(cond: List, list: List)
    | UntilClause(cond: List, list: List)
}
