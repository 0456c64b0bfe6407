/** A read-only dwarfs image, as far as the layer above it can see. */
module Dwarfs {
  import opened Words
  import opened Wrappers

  datatype Entry = Entry(name: string, local: nat)

  /** What an inode is. A directory finds its children by name and lists its entries in a fixed order. */
  datatype Node =
    | Dir(children: map<string, nat>, listing: seq<Entry>)
    | File(data: seq<Byte>)
    | Link(target: string)

  datatype Kind = Directory | Regular | Symlink

  /** The fields of `struct stat` that later calls depend on. */
  datatype Stat = Stat(ino: nat, kind: Kind, size: nat)

  /** An image whose inode numbers start at `root`; local inode 0 is its root directory. */
  datatype Image = Image(root: nat, nodes: map<nat, Node>) {

    /** `fs.find(ino)`: the local inode, if the number belongs to the image. */
    function Find(ino: nat): Option<nat> {
      if root <= ino && ino - root in nodes then Some(ino - root) else None
    }

    /** `fs.find(ino, name)` */
    function Lookup(ino: nat, name: string): (r: Option<nat>)
      ensures r.Some? ==> r.value in nodes
    {
      var dir := Find(ino);
      if dir.Some? && nodes[dir.value].Dir? && name in nodes[dir.value].children &&
         nodes[dir.value].children[name] in nodes
      then Some(nodes[dir.value].children[name])
      else None
    }

    /** `fs.getattr`: inode numbers are reported from the image's root inode on. */
    function GetAttr(local: nat): Stat
      requires local in nodes
    {
      match nodes[local]
      case Dir(_, listing) => Stat(root + local, Directory, |listing|)
      case File(data) => Stat(root + local, Regular, |data|)
      case Link(target) => Stat(root + local, Symlink, |target|)
    }

    predicate IsLink(local: nat)
      requires local in nodes
    {
      nodes[local].Link?
    }
  }
}
