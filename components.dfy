/** The editor's component data: the two node variants, pins and connections between them. */
module Components {
  import opened Geometry
  import opened EntityNodes
  import opened LeafNodes
  import opened ParentNodes

  /** A node is drawn either as a leaf or as a parent container. */
  datatype NodeType = Leaf(leaf: LeafNode) | Parent(parent: ParentNode)
  {
    function Node(): EntityNode
    {
      match this
      case Leaf(l) => l.entityNode
      case Parent(p) => p.entityNode
    }

    function Position(): Pos { Node().position }

    /** Both variants report the rectangle of their shared node part. */
    function NodeRect(): (r: Rect)
      ensures r.min == Position()
      ensures r == CurrentRect(Node())
    {
      match this
      case Leaf(l) => CurrentRect(l.entityNode)
      case Parent(p) => ParentRect(p)
    }

    /** The same node moved to `pos`. */
    function WithPosition(pos: Pos): (n: NodeType)
      ensures n.Position() == pos && n.Leaf? == Leaf?
    {
      match this
      case Leaf(l) => Leaf(l.(entityNode := l.entityNode.(position := pos)))
      case Parent(p) => Parent(p.(entityNode := p.entityNode.(position := pos)))
    }
  }

  /** `usize::MAX`, the pin index that marks a connection from the initial-state pin. */
  const UsizeMax: nat := 0xFFFF_FFFF_FFFF_FFFF

  datatype PinType = Input | Output

  /** A pin of a node: inputs receive transitions, outputs start them. */
  datatype NodePin = NodePin(pinType: PinType, pinIndex: nat, pinLabel: string)

  datatype Connection = Connection(
    fromEntity: Entity,
    fromPinIndex: nat,
    toEntity: Entity,
    toPinIndex: nat,
    connectionType: string)
}
