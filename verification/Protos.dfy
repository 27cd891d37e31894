/** The parts of `FileDescriptorProto` that descriptor building and indexing read. */
module Protos {
  import opened OrderedMaps

  datatype FieldType = Unset | MessageType | EnumType | Primitive

  datatype FieldProto = FieldProto(
    name: string, number: int, fieldType: FieldType, typeName: Option<string>, extendee: Option<string>,
    defaultValue: Option<string>)

  datatype EnumProto = EnumProto(name: string, values: seq<string>)

  /** `ranges` are the numbers left to extensions, each from a first to one past the last. */
  datatype MessageProto = MessageProto(
    name: string, fields: seq<FieldProto>, nested: seq<MessageProto>, enums: seq<EnumProto>,
      extensions: seq<FieldProto>,
    ranges: seq<(int, int)>)

  datatype MethodProto = MethodProto(name: string, input: string, output: string)

  datatype ServiceProto = ServiceProto(name: string, methods: seq<MethodProto>)

  /** `rejected` stands for a check that is not modelled one by one (options, the defaults of scalar and repeated
      fields) and that reports an error at the end of the build. */
  datatype FileProto = FileProto(
    name: string, package: Option<string>, dependencies: seq<string>, publicDependencies: seq<int>,
    messages: seq<MessageProto>, enums: seq<EnumProto>, services: seq<ServiceProto>, extensions: seq<FieldProto>,
    rejected: bool)
}
