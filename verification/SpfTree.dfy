// The data an SPF evaluation works on and produces (spf/tree.go).
module SpfTree {
  datatype Limits = Limits(maxTerms: int, maxVoid: int, maxDepth: int)

  datatype Outcome = OK | NoRecord | NXDomain | Multiple | TempError | Cyclic | Limit | Macro | Void

  datatype Via = ViaRoot | ViaInclude | ViaRedirect | ViaA | ViaMX | ViaPTR | ViaExists

  datatype Perm = NoError | MultipleRecords | OverTermLimit | OverVoidLimit | IncludeNoRecord | Syntax

  datatype Node = Node(seqNo: nat, parent: string, target: string, via: Via, depth: nat, termAt: int,
                       raw: string, outcome: Outcome)

  datatype Broken = Broken(parent: string, target: string, via: Via, reason: Outcome)

  datatype Result = Result(
    domain: string, records: seq<string>, raw: string, found: bool, all: string,
    terms: int, termsExact: bool, void: int, voidExact: bool, maxDepth: int,
    nodes: seq<Node>, includes: seq<string>, broken: seq<Broken>, cycles: seq<seq<string>>,
    permError: Perm, tempError: string)
  {
    predicate OverLimit(lim: Limits) {
      tempError == "" && terms > lim.maxTerms
    }
  }

  function Fresh(domain: string, voidExact: bool): Result {
    Result(domain, [], "", false, "", 0, true, 0, voidExact, 0, [], [], [], [], NoError, "")
  }

  // Appends one visited name to the log.
  function Logged(out: Result, parent: string, target: string, via: Via, depth: nat, raw: string,
                  outcome: Outcome): Result
  {
    out.(nodes := out.nodes + [Node(|out.nodes|, parent, target, via, depth, out.terms, raw, outcome)],
         maxDepth := if depth > out.maxDepth then depth else out.maxDepth)
  }
}
