/** The journal record of the metadata transaction. */
module Journal {

  datatype Identity = Identity(device: nat, inode: nat)

  datatype Direction = Apply | Rollback {
    function Opposite(): Direction {
      if Apply? then Rollback else Apply
    }
  }

  datatype Phase = Pending | Done

  /** A version 1 record; the reader refuses every other version. */
  datatype Record = Record(identity: Identity, owner: nat, direction: Direction, phase: Phase)
}
