/** What a client of the block layer sees: the device, and the contents every
    reader of the buffer cache is given.  The buffer cache is proved to implement
    this view, and the log is written against it. */
module Storage {

  datatype Key = Key(dev: nat, blockno: nat)

  /** A disk block, as a sequence of 32-bit words. */
  type Block = seq<int>

  type Disk = map<Key, Block>

  /** `logical` is what a reader sees; it is lost in a crash, `disk` is not. */
  datatype Store = Store(disk: Disk, logical: Disk) {

    /** log_write: the new contents are pinned in the cache. */
    function Pin(k: Key, data: Block): Store {
      this.(logical := logical[k := data])
    }

    /** bwrite: the new contents reach the device at once. */
    function Write(k: Key, data: Block): Store {
      Store(disk[k := data], logical[k := data])
    }
  }
}
