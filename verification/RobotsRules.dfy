/** The parsed form of a robots.txt file: what the parser produces and the evaluator reads (src/robots/types.ts). */
module RobotsRules {

  datatype Directive = Allow | Disallow

  datatype Rule = Rule(directive: Directive, pattern: string)

  datatype Group = Group(userAgents: seq<string>, rules: seq<Rule>)

  datatype Rules = Rules(groups: seq<Group>, sitemaps: seq<string>)
}
