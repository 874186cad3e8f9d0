/** The data model of a parsed script: commands, nodes, the story and the
    player-facing answers (include/parser.h). */
module Script {

  /** The sixteen command tags; each is also the keyword that starts its line in a script. */
  datatype CommandType =
    | TEXT | IF | ELSE | ELSIF | ENDIF | ANSWER | SET | UNSET | TOGGLE | LET
    | EFFECT | PASS | END | GOTO | IMAGE | SAMPLE

  /** One instruction: its tag, the rest of its line, and the line it came from. */
  datatype Command = Command(commandType: CommandType, parameter: string, lineno: int)

  /** A named scene: its title and its commands in script order. */
  datatype Node = Node(nodeTitle: string, commands: seq<Command>)

  /** `Node(title)`: a node that has its title and no command yet. */
  function NewNode(title: string): (n: Node)
    ensures n.nodeTitle == title && n.commands == []
  {
    Node(title, [])
  }

  /** The parse result: declared flags in declaration order, and the nodes by title. */
  datatype Story = Story(flags: seq<string>, nodes: map<string, Node>)

  /** A choice offered to the player: its text and what runs when it is chosen. */
  datatype Answer = Answer(text: string, commands: seq<Command>)

  /** The keywords that may never appear inside an answer's action list without ending it or being refused there. */
  predicate EndsAnswer(t: CommandType) {
    t == ANSWER || t == PASS || t == END || t == GOTO || t == IF
  }

  /** The tags that structure an IF block. */
  predicate IsBranchKeyword(t: CommandType) {
    t == ELSE || t == ELSIF || t == ENDIF
  }
}
