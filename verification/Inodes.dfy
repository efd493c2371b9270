/** Device numbers and inodes. */
module Inodes {
  import opened Bytes

  // dev_t, ino_t and size_t, all 64 bits wide; `unsigned int` is 32.
  type Word = bv64

  function MakeDev(major: bv32, minor: bv32): Word {
    (((major as bv64) & 0xffff_f000) << 32) | (((major as bv64) & 0xfff) << 8) |
    (((minor as bv64) & 0xffff_ff00) << 12) | ((minor as bv64) & 0xff)
  }

  function Major(dev: Word): bv32 {
    ((((dev >> 32) & 0xffff_f000) | ((dev >> 8) & 0xfff)) & 0xffff_ffff) as bv32
  }

  function Minor(dev: Word): bv32 {
    ((((dev >> 12) & 0xffff_ff00) | (dev & 0xff)) & 0xffff_ffff) as bv32
  }

  // Devices and pairs of 32-bit numbers correspond one to one.
  lemma DeviceBijection(dev: Word, major: bv32, minor: bv32)
    ensures MakeDev(major, minor) == dev <==> Major(dev) == major && Minor(dev) == minor
  {
  }

  datatype Inode = Inode(deviceMajor: Word, deviceMinor: Word, inode: Word)

  // An `unsigned int` as a size_t, and the low half of a size_t as `makedev` takes it.
  function Wide(low: bv32): Word {
    low as bv64
  }

  function Low(word: Word): bv32 {
    (word & 0xffff_ffff) as bv32
  }

  predicate IsNarrow(word: Word) {
    word <= 0xffff_ffff
  }

  function FromDeviceAndInode(dev: Word, ino: Word): Inode {
    Inode(Wide(Major(dev)), Wide(Minor(dev)), ino)
  }

  function DeviceOf(inode: Inode): Word {
    MakeDev(Low(inode.deviceMajor), Low(inode.deviceMinor))
  }

  // An inode whose device numbers fit an `unsigned int`, like every one made from a device.
  predicate Proper(inode: Inode) {
    IsNarrow(inode.deviceMajor) && IsNarrow(inode.deviceMinor)
  }

  lemma WideningIsExact(word: Word, low: bv32)
    ensures word == Wide(low) <==> Low(word) == low && IsNarrow(word)
  {
  }

  /**
   Comparing a searched inode's device and number with those stat(2) reports is comparing the whole
   inode with the one stat(2) yields, exactly for an inode with proper device numbers.
   */
  lemma MatchingByDevice(inode: Inode, dev: Word, ino: Word)
    ensures inode == FromDeviceAndInode(dev, ino) <==>
            inode.inode == ino && DeviceOf(inode) == dev && Proper(inode)
  {
    hide MakeDev, Major, Minor, Low, Wide, IsNarrow;
    DeviceBijection(dev, Low(inode.deviceMajor), Low(inode.deviceMinor));
    WideningIsExact(inode.deviceMajor, Major(dev));
    WideningIsExact(inode.deviceMinor, Minor(dev));
  }

  lemma MadeFromDeviceIsProper(dev: Word, ino: Word)
    ensures Proper(FromDeviceAndInode(dev, ino))
    ensures DeviceOf(FromDeviceAndInode(dev, ino)) == dev
  {
    MatchingByDevice(FromDeviceAndInode(dev, ino), dev, ino);
  }

  // A filename or an errno for an inode.
  datatype InodeResult = Success(inode: Inode, filename: Text) | Failure(inode: Inode, error: int)
}
