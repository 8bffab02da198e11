/** The names on the wire: field names, variant tags and backend tokens. */
module WireNames {
  import opened Bytes

  datatype Name =
    | NODE | TYPE_TAG | STATE | KEY | DEPENDENT | DEPENDENCY | EPOCH | NODES | EDGES | ROOTS | BASE_EPOCH
    | OPS | PAYLOAD | WALL_TIME | LOGICAL | PEER | STAMP | FRONTIER | FROM_EPOCH | THROUGH_EPOCH | OFFSET
    | LEN | GENERATION | CHECKSUM | BACKEND | SNAPSHOT | DELTA | CRDT_SYNC | RESYNC_REQUEST | OUTBOX_ACK
    | CELL_SET | SLOT_VALUE | INVALIDATE | NODE_ADD | NODE_REMOVE | EDGE_ADD | EDGE_REMOVE | QUEUE_PUSH
    | QUEUE_POP | QUEUE_CLOSE | INLINE | SHARED_BLOB | PAYLOAD_TAG | OPAQUE | SHM | ARROW | IN_PROCESS

  /** Length, first and last letter of each name; they tell all names apart. */
  function Mark(n: Name): (nat, char, char) {
    match n
    case NODE => (4, 'n', 'e')
    case TYPE_TAG => (8, 't', 'g')
    case STATE => (5, 's', 'e')
    case KEY => (3, 'k', 'y')
    case DEPENDENT => (9, 'd', 't')
    case DEPENDENCY => (10, 'd', 'y')
    case EPOCH => (5, 'e', 'h')
    case NODES => (5, 'n', 's')
    case EDGES => (5, 'e', 's')
    case ROOTS => (5, 'r', 's')
    case BASE_EPOCH => (10, 'b', 'h')
    case OPS => (3, 'o', 's')
    case PAYLOAD => (7, 'p', 'd')
    case WALL_TIME => (9, 'w', 'e')
    case LOGICAL => (7, 'l', 'l')
    case PEER => (4, 'p', 'r')
    case STAMP => (5, 's', 'p')
    case FRONTIER => (8, 'f', 'r')
    case FROM_EPOCH => (10, 'f', 'h')
    case THROUGH_EPOCH => (13, 't', 'h')
    case OFFSET => (6, 'o', 't')
    case LEN => (3, 'l', 'n')
    case GENERATION => (10, 'g', 'n')
    case CHECKSUM => (8, 'c', 'm')
    case BACKEND => (7, 'b', 'd')
    case SNAPSHOT => (8, 'S', 't')
    case DELTA => (5, 'D', 'a')
    case CRDT_SYNC => (8, 'C', 'c')
    case RESYNC_REQUEST => (13, 'R', 't')
    case OUTBOX_ACK => (9, 'O', 'k')
    case CELL_SET => (7, 'C', 't')
    case SLOT_VALUE => (9, 'S', 'e')
    case INVALIDATE => (10, 'I', 'e')
    case NODE_ADD => (7, 'N', 'd')
    case NODE_REMOVE => (10, 'N', 'e')
    case EDGE_ADD => (7, 'E', 'd')
    case EDGE_REMOVE => (10, 'E', 'e')
    case QUEUE_PUSH => (9, 'Q', 'h')
    case QUEUE_POP => (8, 'Q', 'p')
    case QUEUE_CLOSE => (10, 'Q', 'e')
    case INLINE => (6, 'I', 'e')
    case SHARED_BLOB => (10, 'S', 'b')
    case PAYLOAD_TAG => (7, 'P', 'd')
    case OPAQUE => (6, 'O', 'e')
    case SHM => (3, 's', 'm')
    case ARROW => (5, 'a', 'w')
    case IN_PROCESS => (10, 'i', 's')
  }

  function Text(n: Name): string {
    match n
    case NODE => "node"
    case TYPE_TAG => "type_tag"
    case STATE => "state"
    case KEY => "key"
    case DEPENDENT => "dependent"
    case DEPENDENCY => "dependency"
    case EPOCH => "epoch"
    case NODES => "nodes"
    case EDGES => "edges"
    case ROOTS => "roots"
    case BASE_EPOCH => "base_epoch"
    case OPS => "ops"
    case PAYLOAD => "payload"
    case WALL_TIME => "wall_time"
    case LOGICAL => "logical"
    case PEER => "peer"
    case STAMP => "stamp"
    case FRONTIER => "frontier"
    case FROM_EPOCH => "from_epoch"
    case THROUGH_EPOCH => "through_epoch"
    case OFFSET => "offset"
    case LEN => "len"
    case GENERATION => "generation"
    case CHECKSUM => "checksum"
    case BACKEND => "backend"
    case SNAPSHOT => "Snapshot"
    case DELTA => "Delta"
    case CRDT_SYNC => "CrdtSync"
    case RESYNC_REQUEST => "ResyncRequest"
    case OUTBOX_ACK => "OutboxAck"
    case CELL_SET => "CellSet"
    case SLOT_VALUE => "SlotValue"
    case INVALIDATE => "Invalidate"
    case NODE_ADD => "NodeAdd"
    case NODE_REMOVE => "NodeRemove"
    case EDGE_ADD => "EdgeAdd"
    case EDGE_REMOVE => "EdgeRemove"
    case QUEUE_PUSH => "QueuePush"
    case QUEUE_POP => "QueuePop"
    case QUEUE_CLOSE => "QueueClose"
    case INLINE => "Inline"
    case SHARED_BLOB => "SharedBlob"
    case PAYLOAD_TAG => "Payload"
    case OPAQUE => "Opaque"
    case SHM => "shm"
    case ARROW => "arrow"
    case IN_PROCESS => "in_process"
  }

  lemma {:induction false} TextMarked(n: Name)
    ensures |Text(n)| == Mark(n).0 > 0 && Text(n)[0] == Mark(n).1 && Text(n)[|Text(n)| - 1] == Mark(n).2
  {
    if Mark(n).0 <= 7 { ShortTextMarked(n); } else { LongTextMarked(n); }
    hide Text, Mark;
  }

  lemma {:induction false} ShortTextMarked(n: Name)
    requires Mark(n).0 <= 7
    ensures |Text(n)| == Mark(n).0 > 0 && Text(n)[0] == Mark(n).1 && Text(n)[|Text(n)| - 1] == Mark(n).2
  {
  }

  lemma {:induction false} LongTextMarked(n: Name)
    requires Mark(n).0 > 7
    ensures |Text(n)| == Mark(n).0 > 0 && Text(n)[0] == Mark(n).1 && Text(n)[|Text(n)| - 1] == Mark(n).2
  {
  }

  /** The name with a given mark. */
  function Marked(length: nat, first: char, last: char): Name {
    if length == 3 then
      if first == 'k' && last == 'y' then KEY
      else if first == 'o' && last == 's' then OPS
      else if first == 'l' && last == 'n' then LEN
      else SHM
    else if length == 4 then
      if first == 'n' && last == 'e' then NODE
      else PEER
    else if length == 5 then
      if first == 's' && last == 'e' then STATE
      else if first == 'e' && last == 'h' then EPOCH
      else if first == 'n' && last == 's' then NODES
      else if first == 'e' && last == 's' then EDGES
      else if first == 'r' && last == 's' then ROOTS
      else if first == 's' && last == 'p' then STAMP
      else if first == 'D' && last == 'a' then DELTA
      else ARROW
    else if length == 6 then
      if first == 'o' && last == 't' then OFFSET
      else if first == 'I' && last == 'e' then INLINE
      else OPAQUE
    else if length == 7 then
      if first == 'p' && last == 'd' then PAYLOAD
      else if first == 'l' && last == 'l' then LOGICAL
      else if first == 'b' && last == 'd' then BACKEND
      else if first == 'C' && last == 't' then CELL_SET
      else if first == 'N' && last == 'd' then NODE_ADD
      else if first == 'E' && last == 'd' then EDGE_ADD
      else PAYLOAD_TAG
    else if length == 8 then
      if first == 't' && last == 'g' then TYPE_TAG
      else if first == 'f' && last == 'r' then FRONTIER
      else if first == 'c' && last == 'm' then CHECKSUM
      else if first == 'S' && last == 't' then SNAPSHOT
      else if first == 'C' && last == 'c' then CRDT_SYNC
      else QUEUE_POP
    else if length == 9 then
      if first == 'd' && last == 't' then DEPENDENT
      else if first == 'w' && last == 'e' then WALL_TIME
      else if first == 'O' && last == 'k' then OUTBOX_ACK
      else if first == 'S' && last == 'e' then SLOT_VALUE
      else QUEUE_PUSH
    else if length == 10 then
      if first == 'd' && last == 'y' then DEPENDENCY
      else if first == 'b' && last == 'h' then BASE_EPOCH
      else if first == 'f' && last == 'h' then FROM_EPOCH
      else if first == 'g' && last == 'n' then GENERATION
      else if first == 'I' && last == 'e' then INVALIDATE
      else if first == 'N' && last == 'e' then NODE_REMOVE
      else if first == 'E' && last == 'e' then EDGE_REMOVE
      else if first == 'Q' && last == 'e' then QUEUE_CLOSE
      else if first == 'S' && last == 'b' then SHARED_BLOB
      else IN_PROCESS
    else if length == 13 then
      if first == 't' && last == 'h' then THROUGH_EPOCH
      else RESYNC_REQUEST
    else NODE
  }

  lemma {:induction false} MarkedBack(n: Name)
    ensures Marked(Mark(n).0, Mark(n).1, Mark(n).2) == n
  {
    hide Marked;
    if Mark(n).0 <= 5 {
      ShortMarkedBack(n);
    } else if Mark(n).0 <= 8 {
      MiddleMarkedBack(n);
    } else {
      LongMarkedBack(n);
    }
  }

  lemma {:induction false} ShortMarkedBack(n: Name)
    requires Mark(n).0 <= 5
    ensures Marked(Mark(n).0, Mark(n).1, Mark(n).2) == n
  {
  }

  lemma {:induction false} MiddleMarkedBack(n: Name)
    requires 5 < Mark(n).0 <= 8
    ensures Marked(Mark(n).0, Mark(n).1, Mark(n).2) == n
  {
  }

  lemma {:induction false} LongMarkedBack(n: Name)
    requires 8 < Mark(n).0
    ensures Marked(Mark(n).0, Mark(n).1, Mark(n).2) == n
  {
  }

  lemma {:induction false} MarksDiffer(a: Name, b: Name)
    requires Mark(a) == Mark(b)
    ensures a == b
  {
    MarkedBack(a);
    MarkedBack(b);
    hide Mark, Marked;
  }

  /** The name's bytes; every letter is ASCII. */
  function Spelled(n: Name): Bytes {
    seq(|Text(n)|, i requires 0 <= i < |Text(n)| => Text(n)[i] as int % 256)
  }

  /** Different names are spelled differently. */
  lemma {:induction false} SpelledDiffer(a: Name, b: Name)
    requires a != b
    ensures Spelled(a) != Spelled(b)
  {
    TextMarked(a);
    TextMarked(b);
    LettersAscii(a);
    LettersAscii(b);
    hide Text, Mark;
    if Spelled(a) == Spelled(b) {
      var s, t := Spelled(a), Spelled(b);
      assert |s| == |Text(a)| && |t| == |Text(b)|;
      assert s[0] == Text(a)[0] as int && t[0] == Text(b)[0] as int;
      assert s[|s| - 1] == Text(a)[|s| - 1] as int && t[|s| - 1] == Text(b)[|s| - 1] as int;
      MarksDiffer(a, b);
    }
  }

  lemma {:induction false} LettersAscii(n: Name)
    ensures Mark(n).1 < 128 as char && Mark(n).2 < 128 as char
  {
  }
}
